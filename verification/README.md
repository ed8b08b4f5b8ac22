# Linux 1.0.9 kernel cores in Dafny

Models and proofs of the hard parts of the Linux 1.0.9 C sources: private memory over shared pages, the boot-time
decompressor, record locks, the buffer and inode caches, the area list of a process, the page-block allocator, the
scheduler and its timers, signal frames, exec arguments and pipes. Every data structure that the C code updates in place
is a class whose methods carry the C loops; each method is proved against a specification function or states its whole
effect, and the theorems are about those functions and about every run of them. Code that sleeps is cut into steps at
every point where it can sleep, and the steps of all tasks interleave freely.

| file | models |
|---|---|
| RecordLocks, RecordLockRefusals, RecordLockStatus, RecordLockTable, RecordLockRuns, RecordLockCover | linux/fs/locks.c: `lock_it` as a one-pass scan, refused calls, what a call answers, the table of lock entries, runs of calls, lists in any order |
| CowSwap, SharedSpaces, MemoryManager | linux/mm/memory.c and linux/mm/swap.c: page tables, reference counts, copy-on-write, swapping |
| Bits, HuffmanCodes, HuftTables, HuftBuild, HuftSizing, HuftMake, HuftWalks, HuftBuilder | `huft_build` of linux/zBoot/inflate.c |
| Crc, SlidingWindow, BitReader, Deflate, Inflate | the rest of inflate.c, the checksum and window of misc.c, and the reference decoder |
| DeflateEncode, DeflateStream, GzipMember | the formats as they are written, without the tables of inflate.c, and that reading undoes writing |
| HashChains, BufferCache, BufferQueues | linux/fs/buffer.c |
| InodeCache, InodeTable | linux/fs/inode.c |
| VmAreas | linux/mm/mmap.c |
| Kmalloc | linux/mm/kmalloc.c |
| Timers, Scheduler | linux/kernel/sched.c |
| Signals, SignalCalls | linux/kernel/signal.c |
| ExecArgs | linux/fs/exec.c |
| Pipes | linux/fs/pipe.c |

`dafny verify dfyconfig.toml` checks everything.

## Where the code does not do what one would expect

Each of these is kept as the code has it and delimited by a condition that is both necessary and sufficient where it
says "exactly"; the lemmas named Witness, `ZeroTimerDelays`, `SharedSpaceLosesStore`, `StaleSwapIn`, `LateWrite` and
`EarlyFree` give a concrete case or a run from the initial state.

- `lock_it` compares with `fl_end + 1` in 32 bits (locks.c line 307). A range that runs to the end of the file therefore
  does not merge with an entry of the same kind. The list stays in order exactly when this does not happen, and the
  locked bytes become what was asked for exactly when no entry of another kind lies behind (`LockOwnCorrect`,
  `LockItCorrect`, `WrapWitness`, `WrapOverWitness`). Exclusion between owners, conservation of entries, and the bytes of
  the requested kind are right on all runs anyway (`RunSafe`, `RunGrants`).
- A call that is refused for want of entries can already have changed the list: exactly when the scan rewrites an entry
  before it meets one that it would have to split (`RunRefusalIff`, `RefusalWitness`). On entries in order it never does.
- Out of order, `lock_it` can cut an entry off below its own start. Such an entry covers no byte, but `conflict` still
  compares its two ends, so that it blocks others. A lock is blocked by bytes alone exactly when there is none inside its
  range (`BlockedIff`, `RunAnswers`, `PhantomWitness`).
- The address search of `do_mmap` wraps for a length of all of TASK_SIZE, and is right exactly for all others (`FindRange`,
  which shows that it then always takes the start of the window); the list of areas stays in order exactly for all others
  (`DoMmap`).
- `huft_build` fills its symbol list only for symbols that have a code but tests against its full length (inflate.c
  line 272). An unused code is marked invalid exactly when it comes late enough (`UnusedCodeIff`, `UnusedWitness`).
- The sizing loop of `huft_build` can choose a table wider than its limit, and links into it are then followed with too
  few bits. The tables decode every stream exactly when it does not (`AllReadIff`, `OverwideWitness`), which holds for
  every complete code that inflate passes (`InflateArguments`).
- With two tasks in one address space (`clone_page_tables`), the end of one page fault can wipe out the other task's
  store. `put_page` keeps all counts exactly when it finds the entry empty (`StepCorrect` of CowSwap, `PutPage`,
  `SharedSpaceLosesStore`).
- `swap_in` takes an unchanged entry for unchanged contents, although its slot can have been freed and given to the same
  page again, with a write that waits for the lock which `swap_in` holds. It is invisible exactly when no other bytes wait
  to be written there. And the slot is freed under the write, exactly when that was its last reference, so that the write
  can hit the page of another process (`StepCorrect` of CowSwap, `SwapInRead`, `StaleSwapIn`, `LateWrite`, `EarlyFree`).
  With one task in each address space none of this happens (`OneTaskSmooth`, `PrivateMemory`).
- A tick is lost exactly when some timer has no ticks left, so `add_timer` with 0 delays all timers behind it (`LostIff`,
  `ZeroTimerDelays`); if the bottom half runs after every tick and nobody adds 0, none is lost (`PromptLosesNone`).
- Ticks that come before a wanted reschedule run a task beyond its time without being charged. Every task runs what it was
  granted exactly when there are none (`ExactlyGranted`, `PromptIff`, `OverrunWitness`).
- `try_to_load_aligned` looks for cached blocks before it enters any, and so keeps one buffer per block exactly when its
  list of blocks has no repetition (`LoadUniqueIff`, `TwoBuffersWitness`). `StepCorrect` and `RunRefines` of the buffer
  cache are for such lists.
- When `put_inode` sleeps and somebody finds the inode meanwhile, the rest of `iput` counts it as free, so that
  `nr_free_inodes` is too high by exactly the number of such calls (`RunCorrect` of InodeCache, `SlipWitness`). If the
  inode was to be deleted, it is recycled while it is held; the other properties hold exactly on steps that do not do that
  (`StepCorrect` of InodeCache, `RecycledWitness`).
- `sigreturn` resumes exactly when the saved selectors are null or of user mode; a program may have loaded others
  (`ReturnIff`, `SelectorWitness`).

## What is taken as given

- Disk and swap transfers, filesystem callbacks and copies from and to user space are contracts: a read copies the
  medium to the buffer, a write copies the buffer to the medium as it was when the write started or when it ended.
- Failed allocations are steps that do not happen, except where the code's own answer to them is modelled
  (`copy_strings`, `kmalloc`, `get_swap_page`, `__get_free_page`, lock entries).
- Reference counts are natural numbers: with NR_TASKS tasks neither the 16 bits of `mem_map` nor the 8 bits of `swap_map`
  overflow through page tables alone.
- Doubly linked lists are sequences without repetition; the two lines of pointer updates at each end are not modelled.
- Stale memory is a parameter: the symbol list of `huft_build` starts with arbitrary numbers (`v0`, `junk`). A number that
  is no symbol of the alphabet makes an entry of unknown contents, and decoding that reaches one ends in the status `Wild`,
  about which nothing is claimed; only unused codes reach one.
- The interval between a wanted reschedule and the call of `schedule` is any number of ticks.

## Model

| member | source | states |
|---|---|---|
| RecordLocks.LockOwnCorrect | linux/fs/locks.c:294-403 | For every sorted list of an owner's entries and every request: on success the owner's byte-to-kind map changes exactly on the requested range, to the requested kind, if and only if the 32-bit end + 1 does not wrap in front of an entry of another kind, and the entries are again sorted, disjoint and unmergeable if and only if it does not wrap past a mergeable one; a refused call changes neither entries nor free list; EINVAL if and only if an unlock meets no entry |
| RecordLocks.WrapOutcome | linux/fs/locks.c:307-325 | What a wrapping request does instead: it works on the entries before the first mergeable one as if there were no others, and leaves the rest as they are |
| RecordLocks.WrapWitness | linux/fs/locks.c:307-325 | Concrete failure: byte 0 read-locked, then the whole file read-locked by the same owner, leaves two overlapping entries of the same kind |
| RecordLocks.WrapOverWitness | linux/fs/locks.c:307-325 | With byte 5 write-locked behind it, the same request leaves byte 5 both read-locked and write-locked by its one owner |
| RecordLockRefusals.RefusalIff | linux/fs/locks.c:294-403 | For an owner's entries in any order: a call is refused after it has changed them if and only if no entry is free and the scan merges, replaces or drops one before it meets one that it would have to split; a refused call never changes the free list |
| RecordLocks.LockOwnSound | linux/fs/locks.c:272-403 | On any list whatsoever, ordered or not: every byte an entry covers afterwards was covered with that kind before or lies in the requested range with the requested kind |
| RecordLockCover.LockOwnExact | linux/fs/locks.c:272-403 | On any list of one owner's entries, ordered or not: a lock that is granted leaves covered with the requested kind exactly the bytes that were and those of the requested range |
| RecordLockCover.LockItExact | linux/fs/locks.c:272-403 | The same on a file's whole list in any order, and nobody else's bytes change |
| RecordLockCover.RunGrants | linux/fs/locks.c:94-167 | In every state that any sequence of set, unlock and close calls reaches, wrapping sums included: a lock that is granted gives the caller exactly the bytes of the requested kind that it had and those that it asked for, and nobody else's bytes change |
| RecordLockTable.LockItCorrect | linux/fs/locks.c:272-403 | The same on a file's whole list, for every request: exactly the caller's bytes of the range change and every other owner's map is untouched if and only if no sum wraps over an entry of another kind; the list stays in order if and only if no sum wraps past a merge; a refused call changes nothing |
| RecordLockTable.LockItConserves | linux/fs/locks.c:272-454 | Every table entry that was on the list or free is, afterwards, on the list or free equally often |
| RecordLockTable.DoConserves | linux/fs/locks.c:140-189 | No set, unlock or close call creates, loses or duplicates a lock entry |
| RecordLockTable.RunSafe | linux/fs/locks.c:94-250 | Over every sequence of set, unlock and close calls on any number of files, wrapping sums included: no byte is write-locked by one (task, descriptor) while another holds any lock on it, and each of the NR_FILE_LOCKS entries is in exactly one place |
| RecordLockTable.RunOrdered | linux/fs/locks.c:94-403 | Over every sequence of calls none of which wraps past a merge, every file's list stays in order, so that LockItCorrect describes every call |
| RecordLockRuns.LockItRefusalIff | linux/fs/locks.c:272-403 | The condition of RefusalIff on a file's whole list, however its entries are mixed |
| RecordLockRuns.RunRefusalIff | linux/fs/locks.c:94-167 | In every state that any sequence of set, unlock and close calls reaches, a call is refused after it has changed the table if and only if it meets no conflict, no entry is free, and the scan of the caller's entries rewrites one before it meets one to split |
| RecordLockRuns.RefusalWitness | linux/fs/locks.c:94-167 | A run from the empty table: calls with a wrapping sum bring one owner's entries out of order, others use up the table, and then a request is refused with ENOLCK after its first entry has changed kind |
| RecordLockStatus.BlockedIff | linux/fs/locks.c:231-250 | On every list that can come about, a lock is blocked if and only if another owner holds a byte of its range and one of the two is a write lock, or an entry whose end was cut off below its start lies inside it; an unlock never is |
| RecordLockStatus.StatusIs | linux/fs/locks.c:294-403 | What lock_it answers for entries in any order: EINVAL if and only if an unlock meets no entry, ENOLCK if and only if fewer entries are free than the scan needs |
| RecordLockStatus.NeededInOrder | linux/fs/locks.c:294-403 | On entries in order without a wrapping sum: one entry is needed for a lock that no entry can be given to, and one for an entry with room on both sides of the range |
| RecordLockTable.SetLockAnswers | linux/fs/locks.c:94-167 | The answer to every call on every list that can come about, and on a list in order said through bytes and free entries alone |
| RecordLockRuns.RunAnswers | linux/fs/locks.c:94-167 | Over every sequence of set, unlock and close calls the next call answers so; along a run in which no sum wraps past a merge, by bytes and free entries alone |
| RecordLockRuns.PhantomWitness | linux/fs/locks.c:379-403 | A run from the empty table after which an entry of one task covers no byte at all and yet keeps another task from reading a range of which no one holds a byte for writing |
| RecordLockTable.CloseEffect | linux/fs/locks.c:173-189 | Closing removes every lock of the (task, descriptor) on the file and no other byte of any owner or file, in every reachable state |
| RecordLockTable.ScanEntries | linux/fs/locks.c:294-377 | The loop of lock_it over the caller's entries computes the scan that the theorems are about |
| RecordLockTable.Conclude | linux/fs/locks.c:379-403 | The end of lock_it (allocation of up to two entries, trimming on both sides) computes the specified outcome, error returns included |
| RecordLockTable.LockTable.constructor | linux/fs/locks.c:41-52 | All entries start on the free list |
| RecordLockTable.LockTable.LockRange | linux/fs/locks.c:272-403 | lock_it on the file's list: status, list and free list are those of the specification |
| RecordLockTable.LockTable.SetLk | linux/fs/locks.c:94-167 | F_SETLK: the whole new table is the specified one. On every list that can come about it answers EAGAIN if and only if another owner holds a byte of the range and one of the two is a write lock, or an entry without a byte lies inside the range; EINVAL if and only if an unlock meets no entry of the caller; ENOLCK if and only if fewer entries are free than are needed. On a list in order the first is a matter of bytes alone, the second means that the caller holds no byte of the range, and the entries needed are one for a lock that no old entry can be given to and one for an old entry with room on both sides |
| RecordLockTable.LockTable.RemoveLocks | linux/fs/locks.c:173-189 | The loop of fcntl_remove_locks gives the table that CloseEffect is about |
| RecordLockTable.LockTable.GetLock | linux/fs/locks.c:54-88 | Reports an entry, the first in the way, if and only if another owner holds a byte of the range and one of the two is a write lock, or an entry without a byte lies inside the range; on a list in order the reported entry covers such a byte |
| CowSwap.StepCorrect | linux/mm/memory.c:551-652 | Every step of fault, store, copy-on-write, swap-out, swap-in, fork and exit, cut at every sleep, with any tasks sharing any address spaces and with swap_lockmap as the code takes and releases it: mem_map and swap_map stay equal to the number of places that name the page or slot, shared pages read-only, clean pages zero and slots with a write to come in use, if and only if put_page finds the entry empty and no slot loses its last reference under a write; and what every process sees changes exactly as a separate flat memory would, if and only if put_page finds the entry empty or zero and swap_in does not find its entry unchanged while other bytes wait to be written to the slot |
| CowSwap.RunRefines | linux/mm/memory.c:209-266 | For every run whose steps meet these conditions, whoever shares address spaces, and every address: what a process sees equals its own flat memory after the same stores and forks |
| CowSwap.OneTaskSmooth | linux/mm/memory.c:470-499 | Every run with one task in each address space meets them |
| CowSwap.PrivateMemory | linux/mm/memory.c:551-652 | From boot, over every run with one task in each address space: what a process sees is its flat memory; a load through a present entry yields its bytes; a writable entry's page is named by nobody else; a page whose entry is clean is all zero |
| CowSwap.Wakes | linux/mm/swap.c:78-79 | No task asleep in a fault, in swap_free or before a write to swap is stuck: its next step is possible, or it waits for the lock of a slot whose holder, reader or writer, can go on |
| CowSwap.FaultServes | linux/mm/memory.c:491-643 | At the end of a write fault, whether the page is taken over, copied, filled or read in, the entry is present and writable, and every store into the page is possible |
| CowSwap.FaultStarts | linux/mm/memory.c:616-652 | Whatever an entry holds, either an access through it or the start of a fault that serves it is possible |
| CowSwap.UseMarks | linux/mm/swap.c:241-264 | An access marks the page as used, and it can be neither swapped out nor dropped until the mark is cleared |
| CowSwap.AgeFrees | linux/mm/swap.c:241-264 | Once the mark is cleared, a clean page can be dropped, and a dirty one be swapped out if and only if nothing but its entry names it |
| SharedSpaces.SharedSpaceLosesStore | linux/mm/memory.c:194-202 | With two tasks in one address space a run from boot exists in which the second fault to wake wipes out the store made after the first and leaves a frame counted that nothing names |
| SharedSpaces.StaleSwapIn | linux/mm/swap.c:197-226 | With two tasks in one address space a run from boot exists, for every byte v stored meanwhile, in which swap_in finds the entry unchanged although its slot was freed and used again for the same page: it puts back old contents, which is visible if and only if v differs from them, and frees the slot although a write to it is still to come |
| SharedSpaces.LateWrite | linux/mm/swap.c:181-195 | That run goes on: the slot is given to the page of another process and written, and then the late write puts the first process's bytes there, though nobody has stored anything in that page |
| SharedSpaces.EarlyFree | linux/mm/memory.c:98-107 | A run from boot in which a task that clears the entry waits in swap_free, gets the lock before the writer and frees the slot under the write |
| MemoryManager.Vm.constructor | linux/mm/memory.c:1049-1116 | The initial memory satisfies the invariant and is the initial state of the step system |
| MemoryManager.Vm.CopyEntry | linux/mm/memory.c:245-261 | One entry of copy_page_tables is exactly the fork step |
| MemoryManager.Vm.CopyPageTables | linux/mm/memory.c:209-266 | The loop keeps the invariant; afterwards the child sees what the parent sees and nobody else sees a difference |
| MemoryManager.Vm.WaitOnSlot | linux/mm/swap.c:181-182 | The wait in swap_free for the slot's lock, whether a writer or a reader holds it: afterwards nobody does, and if no write was waiting for a lock everything is in order and nobody sees a difference |
| MemoryManager.Vm.WriteEnded | linux/mm/swap.c:101-103 | The end of a write to swap is the corresponding step; it keeps everything in order, and nobody sees a difference |
| MemoryManager.Vm.SwapFreeAwake | linux/mm/swap.c:183-195 | swap_free once it has the lock is the corresponding step; everything stays in order if and only if the slot keeps a reference or no write to it is to come |
| MemoryManager.Vm.FreeEntry | linux/mm/memory.c:98-107 | The entry is cleared first, and then the page or the slot is given up, with a wait for the slot's lock. In any state, even a broken one, the entry is gone and everything still names what exists; if everything was in order and no write waited for a lock, it stays so, the page reads as zero and no other page of any process changes |
| MemoryManager.Vm.PutPage | linux/mm/memory.c:491-497 | put_page at the end of a fault is the fill step; the memory is in order afterwards if and only if the entry was empty, and then nobody sees a difference; the page is writable |
| MemoryManager.Vm.SwapInRead | linux/mm/swap.c:101-226 | The end of swap_in from the end of the transfer on, swap_free included, is the corresponding step; everything stays in order if and only if the slot keeps a reference or no write to it is to come, and nobody sees a difference if and only if the entry is changed or no other bytes wait to be written to the slot |
| MemoryManager.Vm.FreePageTables | linux/mm/memory.c:157-186 | Every page of the space is gone; if everything was in order and no write waited for a lock, no other space notices and all counts equal the references that remain |
| MemoryManager.Vm.DoWpPage | linux/mm/memory.c:616-652 | Nothing, take-over of an unshared page, or the start of a copy, each exactly when the step system says so; a page that is taken over is writable afterwards; nobody sees a difference |
| MemoryManager.Vm.WpPageAllocated | linux/mm/memory.c:551-610 | After the allocation slept, whatever happened to the entry meanwhile, the rest of __do_wp_page is a possible step and changes nobody's view; an entry that is still present is writable afterwards |
| MemoryManager.Vm.TryToSwapOut | linux/mm/swap.c:228-265 | Frees a page exactly when the entry is present, unreferenced, not freed just before, and either clean or private and dirty with a slot on offer; no process sees a difference |
| MemoryManager.Vm.SendToSwap | linux/mm/swap.c:248-259 | Giving a dirty page a swap slot is the swap-out step, and invisible |
| MemoryManager.Vm.DropClean | linux/mm/swap.c:260-264 | Dropping a clean page is invisible, because a clean page is zero |
| MemoryManager.Vm.ClearAccessed | linux/mm/swap.c:241-244 | Clearing the accessed bit changes nothing else |
| MemoryManager.SwapArea.constructor | linux/mm/swap.c:728-836 | Slot 0 and bad slots are marked unusable, all others are free |
| MemoryManager.SwapArea.GetSwapPage | linux/mm/swap.c:106-127 | Returns the lowest free slot with count 1 and fails if and only if no slot is free: lowest_bit and highest_bit never hide one |
| MemoryManager.SwapArea.SwapDuplicate | linux/mm/swap.c:129-155 | Adds a reference if and only if the slot exists and is in use |
| MemoryManager.SwapArea.SwapFree | linux/mm/swap.c:157-195 | Drops one reference and keeps the bounds around every free slot |
| MemoryManager.FrameLists.FreePage | linux/mm/swap.c:512-541 | Drops one reference of an ordinary frame and puts it on a free list exactly when it was the last; reserved and foreign frames are left alone |
| MemoryManager.FrameLists.GetFreePage | linux/mm/swap.c:586-614 | Returns an unused frame with count 1, and fails if and only if the lists it may use are empty |
| HuffmanCodes.LeftIsKraft | linux/zBoot/inflate.c:172-177 | The running count of patterns left equals 2^g minus the Kraft sum, for every list of lengths |
| HuffmanCodes.PrefixFree | linux/zBoot/inflate.c:195-214 | In a code of section 3.2.2 of RFC 1951 whose lengths are not over-subscribed no code word is a prefix of another |
| HuffmanCodes.ShorterFirst | linux/zBoot/inflate.c:205-214 | Words of one length come, as bit strings, before all longer words: the order in which the loop generates them |
| HuffmanCodes.DecodesOnce | linux/zBoot/inflate.c:361-370 | A bit stream begins with the word of at most one symbol |
| HuffmanCodes.DecodesSome | linux/zBoot/inflate.c:361-370 | A stream as long as the longest word of a complete code begins with the word of some symbol |
| HuffmanCodes.NthSymbol | linux/zBoot/inflate.c:187-192 | The symbol of a given length and rank exists and has that length and rank |
| HuftTables.WalkDecodes | linux/zBoot/inflate.c:361-370 | When all entries are in place and each table is as wide as its place allows, walking the linked tables from any of them over any bits ends in the symbol whose canonical word the bits begin with and uses up exactly that word, and gets stuck only when the bits run out |
| HuftTables.PushGood | linux/zBoot/inflate.c:239-265 | Linking in a new table keeps every entry of every table that is already due |
| HuftTables.FillFilled | linux/zBoot/inflate.c:286-289 | Spreading a code over its table extends what is in place to the end of that code and disturbs no other entry |
| HuftTables.PopKeeps | linux/zBoot/inflate.c:296-301 | Leaving a finished table keeps the invariant |
| HuftTables.AllFilled | linux/zBoot/inflate.c:205-305 | When the codes have used up all patterns every table is complete |
| HuftBuild.CountLengths | linux/zBoot/inflate.c:132-141 | The counting loop gives the number of symbols of every length |
| HuftBuild.Offsets | linux/zBoot/inflate.c:179-184 | The offset of a length is the number of symbols with shorter codes |
| HuftBuild.SortSymbols | linux/zBoot/inflate.c:179-192 | The counting sort puts the r-th symbol of length k at the offset of k plus r, for every k and r, and leaves the places beyond untouched |
| HuftBuild.CheckLengths | linux/zBoot/inflate.c:169-177 | The check fails if and only if the Kraft sum exceeds 1, and otherwise ends with exactly the number of unused patterns, so with 0 if and only if the code is complete |
| HuftBuild.NextCode | linux/zBoot/inflate.c:291-294 | The backwards increment of a bit-reversed code is the bit-reversed next code, wrapping to zero after the last |
| HuftBuild.IncValue | linux/zBoot/inflate.c:291-294 | Read with its first bit highest, the next code is the code plus one |
| HuftBuild.FillEntries | linux/zBoot/inflate.c:286-289 | Exactly the places whose low bits are the code get the entry |
| HuftBuild.SizeTable | linux/zBoot/inflate.c:222-237 | The table is wide enough for the code and, within the limit, full of codes; it exceeds the limit exactly when the first try already reaches it with too few codes |
| HuftSizing.SizeLooks | linux/zBoot/inflate.c:222-237 | What the sizing loop chose fits below its table, and is wider than its limit exactly at the places where all words are l bits deeper or more, but not all exactly l |
| HuftMake.Descend | linux/zBoot/inflate.c:215-267 | Adds linked tables until the code ends within the last, keeping all invariants |
| HuftMake.Place | linux/zBoot/inflate.c:270-289 | Enters one code, after which everything up to its end is in place |
| HuftMake.Retreat | linux/zBoot/inflate.c:296-301 | Leaves exactly the tables that the next code does not continue |
| HuftMake.OneCode | linux/zBoot/inflate.c:210-303 | One round of the loop: the next code in canonical order is placed and the loop is ready for the one after it |
| HuftMake.BuildTables | linux/zBoot/inflate.c:195-305 | After the loop all entries of all tables are right for the whole code, and every table looks up as many bits as the sizing loop says, for every complete code and every look-up width |
| HuftWalks.AllReadIff | linux/zBoot/inflate.c:195-370 | For every complete code, the tables so built decode every stream if and only if there is no place at a multiple of l bits below which all words are l bits deeper or more, but not all exactly l |
| HuftBuilder.Measure | linux/zBoot/inflate.c:132-177 | Counts, least and greatest length, look-up width and unused patterns; the return code is settled here |
| HuftBuilder.Build | linux/zBoot/inflate.c:99-311 | huft_build, for every set of lengths up to 16, every look-up width and every content of the uninitialised symbol list: returns 2 if and only if the lengths are over-subscribed, 1 if and only if incomplete with a longest code other than 1; and unless over-subscribed makes tables that decode every stream if and only if none of them is too wide |
| HuftBuilder.SizedNarrow | linux/zBoot/inflate.c:222-237 | No table is too wide if the longest code has at most twice the look-up bits, or there are fewer codes than look-up patterns |
| HuftBuilder.OverwideWitness | linux/zBoot/inflate.c:222-237 | Lengths 1, 2, 3, 3 with one look-up bit: the call succeeds, and no tables laid out as the loop does decode every stream |
| HuftBuilder.BuiltDecodes | linux/zBoot/inflate.c:99-370 | Walking the tables huft_build made, over any bits, yields the symbol whose canonical code word the bits begin with and consumes exactly that word; bits of no symbol's word reach an unused code; it is stuck only with fewer bits than the longest code |
| HuftBuilder.InflateArguments | linux/zBoot/inflate.c:498-710 | For every complete code with the sizes inflate passes (up to 288 with 9 bits, 32 with 6, 19 with 7) no table is too wide |
| HuftBuilder.UnusedCodeIff | linux/zBoot/inflate.c:270-283 | Walking the tables huft_build made over bits that begin with the i-th unused code ends in an entry that is marked invalid if and only if there are at most i symbols without a code, or the stale symbol at that place is marked so itself; otherwise in the entry of that stale symbol: line 272 compares with v + n although v is filled only for nonzero lengths |
| HuftBuilder.UnusedWitness | linux/zBoot/inflate.c:270-283 | Lengths 1 and 0: in the tables that huft_build makes and reports as a success, the unused bit decodes to whatever the symbol list held |
| Crc.Linear | linux/zBoot/misc.c:250-280 | Shifting the register is linear over exclusive or |
| Crc.TableStep | linux/zBoot/misc.c:168-186 | For every register and byte, one table look-up equals eight shifts of section 8 of RFC 1952 |
| Crc.Entry | linux/zBoot/misc.c:269-279 | The loop of makecrc computes the table entry of a byte |
| Crc.MakeCrc | linux/zBoot/misc.c:250-280 | All 256 entries are the eight-fold shifts of their index |
| Crc.Register.constructor | linux/zBoot/misc.c:168-180 | The register starts with nothing fed |
| Crc.Register.UpdCrc | linux/zBoot/misc.c:168-186 | After any sequence of calls the result is the bit-by-bit checksum of everything fed since the start |
| Crc.PolyValue | linux/zBoot/misc.c:259-265 | The pattern made from the terms of the polynomial is the 0xEDB88320 of section 8 of RFC 1952 |
| Crc.Residue | linux/zBoot/misc.c:168-186 | For every message, the register that has seen the message and then its checksum is in one and the same state |
| SlidingWindow.LzCopyMore | linux/zBoot/inflate.c:405-426 | Copying n and then m bytes from the same distance is copying n + m |
| SlidingWindow.LzCopyRepeats | linux/zBoot/inflate.c:405-426 | A copy keeps the history, and every byte that it adds is the one a distance before it |
| SlidingWindow.ChunkMoves | linux/zBoot/inflate.c:407-421 | Moving a chunk inside the buffer, even onto itself, appends what the byte-by-byte copy in the whole history appends |
| SlidingWindow.Window.constructor | linux/zBoot/inflate.c:786-789 | An empty history |
| SlidingWindow.Window.Move | linux/zBoot/misc.c:152-159 | The chunk is moved byte by byte from the front |
| SlidingWindow.Window.CopyChunk | linux/zBoot/inflate.c:407-425 | One chunk with its flush extends the history like the byte-by-byte copy |
| SlidingWindow.Window.Copy | linux/zBoot/inflate.c:405-426 | For every length and every distance up to 32768 and up to the bytes produced, the chunked, wrapping copy with flushes appends exactly what the byte-by-byte copy from that distance appends |
| SlidingWindow.Window.PutByte | linux/zBoot/inflate.c:371-379 | A literal is appended to the history, with a flush when the window is full |
| SlidingWindow.Window.Flush | linux/zBoot/misc.c:230-240 | The flushed bytes go out and through the checksum, in order |
| SlidingWindow.Window.WrapAround | linux/zBoot/inflate.c:421-425 | A full window goes out whole and still serves later copies |
| SlidingWindow.Window.Finish | linux/zBoot/inflate.c:808-809 | At the end everything produced has gone out, exactly once |
| BitReader.Reader.constructor | linux/zBoot/inflate.c:786-789 | The stream is the bits of the bytes, each lowest bit first |
| BitReader.Reader.NeedBits | linux/zBoot/inflate.c:84-84 | Fetching never changes the stream of unread bits and succeeds if and only if there are enough |
| BitReader.Reader.Peek | linux/zBoot/inflate.c:361-362 | The masked buffer is the value of the next n bits of the stream |
| BitReader.Reader.DumpBits | linux/zBoot/inflate.c:85-85 | Removes exactly n bits from the stream |
| BitReader.Reader.Take | linux/zBoot/inflate.c:387-389 | Reads and removes n bits, or leaves the stream alone if there are fewer |
| BitReader.Reader.SkipToByte | linux/zBoot/inflate.c:459-461 | Removes exactly the bits before the next byte boundary |
| BitReader.Reader.UndoLookahead | linux/zBoot/inflate.c:800-806 | Gives back exactly the whole bytes in the buffer |
| Deflate.Symbol | linux/zBoot/inflate.c:361-370 | The symbol whose word the bits begin with, if there is one: the reference that decoding is compared with |
| Deflate.FixedLitFacts | linux/zBoot/inflate.c:513-522 | The fixed literal lengths form a complete code of 288 words with at most nine bits |
| DeflateEncode.LengthNamed | linux/zBoot/inflate.c:51-57 | For every length from 3 to 258: the code and extra bits that arithmetic gives for it (ranges that double after every four codes, and a code of its own for 258) are read by the tables as that length |
| DeflateEncode.DistanceNamed | linux/zBoot/inflate.c:58-65 | For every distance from 1 to 32768: the code and extra bits that arithmetic gives for it (ranges that double after every two codes) are read by the tables as that distance |
| DeflateEncode.TokensRead | linux/zBoot/inflate.c:336-438 | For every two code sets that are not over-subscribed and every list of literals and copies: the bits that the format writes for them are decoded to what they stand for, and nothing behind them is used |
| DeflateStream.OrderIs | linux/zBoot/inflate.c:49-50 | The order of the code length lengths is 16 to 18, 0, and then from 8 on upwards and downwards in turn |
| DeflateStream.LensRead | linux/zBoot/inflate.c:624-668 | Every list of code lengths, runs of the last one and runs of zeros, written as section 3.2.7 of RFC 1951 says, is decoded to the lengths it stands for |
| DeflateStream.FixedWordIs | linux/zBoot/inflate.c:513-522 | The fixed literal lengths give every symbol the code word that section 3.2.6 of RFC 1951 lists |
| DeflateStream.FixedDistIs | linux/zBoot/inflate.c:527-530 | The fixed distance code of a symbol is its five-bit number |
| DeflateStream.PlainRead | linux/zBoot/inflate.c:442-494 | A stored block written from any bit position is decoded to its bytes |
| DeflateStream.OwnRead | linux/zBoot/inflate.c:552-726 | A dynamic block, for every choice of usable codes and every way to write their lengths, is decoded to what its tokens stand for |
| DeflateStream.PartRead | linux/zBoot/inflate.c:730-773 | One block of any of the three kinds is decoded to what it was made from |
| DeflateStream.StreamRead | linux/zBoot/inflate.c:777-818 | Decoding undoes encoding: every stream of stored, fixed and dynamic blocks in any order, written by the format, is decoded to exactly the data it was made from and ends where it ends |
| DeflateStream.BytesRoundTrip | linux/zBoot/inflate.c:777-818 | Every sequence of bytes has a stream that decodes to it |
| DeflateStream.DynamicWitness | linux/zBoot/inflate.c:552-726 | A dynamic block that meets the conditions exists |
| GzipMember.TrailerAt | linux/zBoot/unzip.c:143-173 | The CRC-32 and the length modulo 2^32, four bytes each and the lowest first, are the trailer that unzip asks for |
| GzipMember.MemberUnzips | linux/zBoot/unzip.c:95-173 | For every list of blocks: the stream filled up to a byte, with this trailer behind it, meets exactly the conditions under which Unzip succeeds with the data it was made from |
| Inflate.Inflater.LookUp | linux/zBoot/inflate.c:361-370 | The look-up loop returns the entry of the symbol that the stream begins with and removes exactly its word; only an unused code can lead to an entry made of stale memory |
| Inflate.Inflater.TakeDistance | linux/zBoot/inflate.c:392-403 | Distance code and extra bits give the distance of section 3.2.5 of RFC 1951 |
| Inflate.Inflater.CopyMatch | linux/zBoot/inflate.c:385-426 | Length, distance and copy do what the reference decoder does with a match |
| Inflate.Inflater.OneCode | linux/zBoot/inflate.c:359-427 | One code advances the stream and the history as the reference decoder does |
| Inflate.Inflater.InflateCodes | linux/zBoot/inflate.c:336-438 | The codes of a block come out as the reference decoder says |
| Inflate.Inflater.InflateStored | linux/zBoot/inflate.c:442-494 | A stored block comes out as section 3.2.4 of RFC 1951 says |
| Inflate.Inflater.InflateFixed | linux/zBoot/inflate.c:498-548 | A fixed block comes out as section 3.2.6 of RFC 1951 says |
| Inflate.Inflater.TakeCodeLens | linux/zBoot/inflate.c:601-609 | The code length code's lengths, in their order |
| Inflate.Inflater.TakeLengths | linux/zBoot/inflate.c:624-668 | The run-length coded lengths come out as section 3.2.7 of RFC 1951 says |
| Inflate.Inflater.InflateDynamic | linux/zBoot/inflate.c:552-726 | A dynamic block comes out as section 3.2.7 of RFC 1951 says |
| Inflate.Inflater.InflateBlock | linux/zBoot/inflate.c:730-773 | One block and its last-block bit, for all block types |
| Inflate.Inflater.Inflate | linux/zBoot/inflate.c:777-818 | Whatever the uninitialised memory holds, every valid deflate stream with a trailer behind it decompresses to exactly the bytes of the RFC 1951 reference decoder; all of them, and nothing else, went out and through the checksum, and reading goes on at the first byte behind the stream |
| Inflate.Inflater.Unzip | linux/zBoot/unzip.c:95-173 | A valid member with the right trailer is accepted with the right output; whatever is accepted carries the CRC-32 and the length of what was put out |
| BufferCache.StepCorrect | linux/fs/buffer.c:357-555 | Every step of getblk, bread, brelse, get_hash_table, sync, grow, shrink and try_to_load_aligned (on a list of blocks without repetition), cut at every sleep, keeps at most one buffer per (device, block) and every reference count, and changes the view "cached data if up to date, else disk" exactly as stores do |
| BufferCache.RunRefines | linux/fs/buffer.c:92-148 | From an empty cache, for every interleaving: the cache and the disk together show exactly the blocks as the stores left them, with one buffer per block |
| BufferCache.HolderSees | linux/fs/buffer.c:538-555 | Whoever holds an up-to-date buffer sees the current contents of the block it asked for |
| BufferCache.UsedIsKept | linux/fs/buffer.c:447-518 | A buffer that is referenced, dirty or locked is never given to another block and never freed, by any step |
| BufferCache.LoadUniqueIff | linux/fs/buffer.c:740-791 | try_to_load_aligned keeps one buffer per block if and only if its list of blocks has no repetition |
| BufferCache.TwoBuffersWitness | linux/fs/buffer.c:740-791 | In the empty cache, loading a page whose two blocks are the same one leaves two buffers for it |
| BufferCache.RecheckHolds | linux/fs/buffer.c:380-393 | The test after the wait in get_hash_table never fails |
| BufferCache.FindGives | linux/fs/buffer.c:380-393 | A cached block: its buffer is the caller's at once or after the wait for its lock, one reference more, all else unchanged |
| BufferCache.PickGives | linux/fs/buffer.c:465-517 | A block that is not cached: a clean unlocked victim becomes a blank buffer for it with the caller's as the only reference; getblk waits for a locked victim and starts again without a reference otherwise |
| BufferCache.WaitGives | linux/fs/buffer.c:497-517 | After the wait the victim becomes a blank buffer for the block if and only if nobody else refers to it, it is clean and of the right size, and nobody has brought the block in meanwhile; otherwise the reference is dropped and nothing else changes |
| BufferCache.ReleaseGives | linux/fs/buffer.c:520-532 | Releasing drops exactly one reference |
| BufferCache.ReadGives | linux/fs/buffer.c:538-555 | bread: a read that was started can end; without error the caller has the block's current contents, with one the buffer is as before |
| BufferCache.ReadEnds | linux/fs/buffer.c:538-555 | Whatever happened meanwhile, a read that ends without error leaves the buffer up to date and unlocked |
| BufferCache.WriteStarts | linux/fs/buffer.c:92-148 | A write that starts leaves the buffer clean and locked, and can end |
| BufferCache.StoreMarks | linux/fs/buffer.c:92-148 | A store leaves the buffer dirty, so that a write can start |
| BufferCache.WriteEnds | linux/fs/buffer.c:92-148 | A write that ends leaves the buffer unlocked and, if nothing was stored meanwhile, the block's current contents on disk; no other block of the disk changes |
| BufferCache.GrowGives | linux/fs/buffer.c:864-905 | grow_buffers: exactly the new buffers come in, each unused, clean and free for any block |
| BufferCache.ShrinkTakes | linux/fs/buffer.c:907-936 | try_to_free: exactly the page's buffers are gone |
| BufferCache.LoadGives | linux/fs/buffer.c:740-791 | try_to_load_aligned: each caller's reference is the only one to a blank buffer for its block |
| BufferCache.Unlocks | linux/fs/buffer.c:538-555 | A transfer that locks a buffer can end, and then the buffer is unlocked |
| BufferCache.Wakes | linux/fs/buffer.c:380-555 | Nobody is stuck: whoever has a reference can take its next step or waits for a lock that can be released |
| BufferCache.GetblkBegins | linux/fs/buffer.c:447-518 | getblk finds a cached block, and for any other can pick any unused buffer of the right size |
| BufferQueues.Cache.constructor | linux/fs/buffer.c:1010-1025 | An empty cache with empty chains |
| BufferQueues.Cache.FindBuffer | linux/fs/buffer.c:357-371 | Walking one chain finds the block's buffer if and only if the cache has one |
| BufferQueues.Cache.PutLastFree | linux/fs/buffer.c:323-337 | The buffer moves to the end of the ring, all others keep their order |
| BufferQueues.Cache.RemoveFromQueues | linux/fs/buffer.c:282-308 | The buffer leaves its chain and the ring; chains still hold exactly the buffers of their hash value |
| BufferQueues.Cache.InsertIntoQueues | linux/fs/buffer.c:339-355 | The buffer enters the chain of its hash value and the end of the ring |
| BufferQueues.Cache.SelectVictim | linux/fs/buffer.c:465-485 | The scan finds a candidate if there is any, a dirty one only if all are dirty, a locked one only if all are dirty or locked, and among the best the first on the free list |
| BufferQueues.Cache.Take | linux/fs/buffer.c:508-517 | The end of getblk is the step that gives a clean, unlocked, unreferenced buffer to the new block: the caller's is the only reference, and the buffer is clean and without data |
| BufferQueues.Cache.Getblk | linux/fs/buffer.c:447-518 | Up to the first sleep: finds the block if and only if it is cached, and then the caller has its buffer or waits for it; takes a buffer if and only if the block is not cached and a clean unlocked candidate exists, and then the caller has the only reference to a blank buffer for the block; every outcome is the corresponding step of the interleaved system, and it fails only without candidates |
| BufferQueues.Cache.Brelse | linux/fs/buffer.c:520-532 | Releasing a buffer is the release step: the reference is gone and the count one less |
| BufferQueues.Cache.AllIdle | linux/fs/buffer.c:915-922 | The first loop says whether all buffers of the page are unreferenced, clean and unlocked |
| BufferQueues.Cache.RemoveAll | linux/fs/buffer.c:923-932 | Exactly the page's buffers leave the queues |
| BufferQueues.Cache.TryToFree | linux/fs/buffer.c:907-936 | Frees the page if and only if all its buffers are idle, and then is exactly the shrink step |
| HashChains.ChainRemove | linux/fs/buffer.c:282-291 | Unlinking from its chain leaves every chain with exactly the objects of its hash value |
| HashChains.ChainAdd | linux/fs/buffer.c:339-355 | Linking at the head of its chain does too |
| HashChains.RotateIsMove | linux/fs/buffer.c:323-337 | On a ring, advancing the head past an object is moving that object to the end |
| InodeCache.StepCorrect | linux/fs/inode.c:303-484 | Every step of iget, iput, get_empty_inode and grow_inodes, cut at every sleep, put_inode included: at most one inode per (device, number) and every count stay right if and only if no inode is deleted that somebody has found again meanwhile; nr_free_inodes becomes wrong by one more exactly when iput ends on an inode that somebody has found again |
| InodeCache.RunCorrect | linux/fs/inode.c:303-484 | Over every run from boot in which no inode is so deleted: at most one inode per (device, number), every count is the number of references, and nr_free_inodes exceeds the number of inodes with count zero by exactly the number of such ends of iput |
| InodeCache.ReferencedStays | linux/fs/inode.c:343-394 | No step but such a deletion recycles a referenced inode: it stays in core under its number |
| InodeCache.RecheckHolds | linux/fs/inode.c:427-484 | The test after the wait in iget never fails |
| InodeCache.DeleteStep | linux/fs/inode.c:328-332 | Deleting an unlinked inode keeps everything right if its count is still one, and otherwise breaks the counts |
| InodeCache.SlipWitness | linux/fs/inode.c:303-341 | A run from boot in which put_inode sleeps, another task finds the inode, and iput then counts it as free though it is held |
| InodeCache.RecycledWitness | linux/fs/inode.c:328-332 | The same run with the last link removed: the inode is recycled while the other task holds it |
| InodeCache.LookupGives | linux/fs/inode.c:427-484 | iget of an inode in core: one reference more, at once or after the wait for its lock |
| InodeCache.EnterGives | linux/fs/inode.c:343-484 | get_empty_inode and the end of iget: the only reference to an inode under the number asked for, locked for being read in; all others unchanged |
| InodeCache.PutGives | linux/fs/inode.c:303-341 | iput drops one of several references and nothing else; the last goes to put_inode, and from there the inode is given back, deleted or written as its links and dirty flag say |
| InodeCache.PutEnds | linux/fs/inode.c:303-341 | After the last iput the inode stays in core under its number, or, deleted, is under none and can be taken |
| InodeCache.DirtyStays | linux/fs/inode.c:303-394 | A dirty inode stays in core, dirty and under its number until its write starts or put_inode deletes it |
| InodeCache.Wakes | linux/fs/inode.c:303-484 | Nobody is stuck: whoever has a reference can take its next step or waits for an inode that can be unlocked |
| InodeTable.Table.constructor | linux/fs/inode.c:108-113 | No inodes yet |
| InodeTable.Table.Find | linux/fs/inode.c:436-440 | Walking one chain finds the inode if and only if it is in core |
| InodeTable.Table.SelectBest | linux/fs/inode.c:350-362 | The scan finds an unused inode if there is one, and a clean unlocked one whenever one exists |
| InodeTable.Table.Replace | linux/fs/inode.c:147-160 | clear_inode takes the inode out of its chain and to the head of the ring and leaves all others in place |
| InodeTable.Table.GetEmptyInode | linux/fs/inode.c:343-394 | Takes an inode if and only if a reusable one exists, and is then exactly the corresponding step: the only reference to a clean, unlocked inode under no number; otherwise changes nothing |
| InodeTable.Table.EnterInode | linux/fs/inode.c:450-456 | Entering the empty inode under its number is the corresponding step; it is then locked under that number |
| InodeTable.Table.Iput | linux/fs/inode.c:303-341 | Dropping a reference is the corresponding step: one of several is gone, and the last goes to put_inode with the inode unchanged |
| VmAreas.InsertSorted | linux/mm/mmap.c:360-384 | Inserting an area that meets no other keeps the list sorted and disjoint |
| VmAreas.InsertLookup | linux/mm/mmap.c:360-384 | The address map changes exactly on the new area |
| VmAreas.RestKeeps | linux/mm/mmap.c:178-227 | What unmap_fixup leaves of an area maps every remaining address to its old inode, offset, protection and operations, and no other |
| VmAreas.FixupMeans | linux/mm/mmap.c:288-305 | Putting back what is left of one touched area keeps the meaning of the whole list |
| VmAreas.MergedSame | linux/mm/mmap.c:391-439 | Two areas that may merge and the merged one map the same addresses to the same places |
| VmAreas.MergeIff | linux/mm/mmap.c:405-427 | The test of merge_segments succeeds if and only if the second area starts where the first ends, the first would map the second's addresses to what the second maps them to, and, when offsets are ignored, there is no file, or else offsets run on even without a file |
| VmAreas.AddressSpace.constructor | linux/mm/mmap.c:360-384 | An empty address space |
| VmAreas.AddressSpace.InsertVmStruct | linux/mm/mmap.c:360-384 | The loop inserts the area in order of address |
| VmAreas.AddressSpace.UnmapFixup | linux/mm/mmap.c:178-227 | For every range, 32-bit sum included: nothing for a bad one, else puts back nothing, one end, or both sides of a hole, which for an empty range inside the area are the two halves of it |
| VmAreas.AddressSpace.TakeTouched | linux/mm/mmap.c:262-277 | Exactly the areas that the range meets are taken off the list |
| VmAreas.AddressSpace.PutBack | linux/mm/mmap.c:288-305 | After all of them are dealt with the map is the old one without the range |
| VmAreas.AddressSpace.DoMunmap | linux/mm/mmap.c:246-308 | Succeeds exactly on page-aligned ranges within TASK_SIZE and then removes exactly the given pages from the address map: every other address keeps inode, offset and protection; the list stays sorted and disjoint |
| VmAreas.AddressSpace.MergeSegments | linux/mm/mmap.c:391-439 | On every sorted list: leaves the address map unchanged (offsets of anonymous areas ignored), the list sorted, and between any two neighbours a gap, a difference in what they map, or the rule about offsets; on a list with an area whose end has wrapped to zero, one stays |
| VmAreas.AddressSpace.FindRange | linux/mm/mmap.c:84-102 | The search terminates; it returns the lowest range in the window that meets no area, or reports that there is none, if and only if the length is not all of TASK_SIZE, for which the 32-bit sum wraps |
| VmAreas.AddressSpace.DoMmap | linux/mm/mmap.c:84-135 | Fails exactly when no range fits; otherwise, if and only if the length is not all of TASK_SIZE without MAP_FIXED, the list stays sorted and disjoint, and then the address map changes exactly on the new range, which without MAP_FIXED is the lowest free one, and no two neighbours are left that could be merged |
| Kmalloc.LiveInside | linux/mm/kmalloc.c:92-102 | A live block lies within its page, behind the descriptor, and is as large as asked for, in every state that satisfies the invariant |
| Kmalloc.BlocksFill | linux/mm/kmalloc.c:92-102 | A page holds as many blocks of each size as fit behind its descriptor, and from 252 bytes up no block could be a word longer |
| Kmalloc.LiveDisjoint | linux/mm/kmalloc.c:148-258 | Two live blocks never overlap |
| Kmalloc.TakeInv | linux/mm/kmalloc.c:186-206 | Taking a block keeps the invariant: free list and used blocks partition each page, and a page is on its size list exactly when it has a free block |
| Kmalloc.AddInv | linux/mm/kmalloc.c:213-257 | A new page cut into blocks keeps it |
| Kmalloc.FreeInv | linux/mm/kmalloc.c:275-348 | Freeing a block keeps it, and gives the page back if and only if no other block of it is in use |
| Kmalloc.RunInv | linux/mm/kmalloc.c:148-348 | Every interleaving of the parts of kmalloc and kfree_s that run with interrupts off keeps the invariant |
| Kmalloc.RunSafe | linux/mm/kmalloc.c:148-348 | In every reachable state the bytes of two live blocks are disjoint |
| Kmalloc.TakeKeepsLive | linux/mm/kmalloc.c:186-206 | Taking a block leaves every live block live, in place and with its size |
| Kmalloc.FreeLive | linux/mm/kmalloc.c:275-348 | Freeing a block ends the life of that block and of no other |
| Kmalloc.GetOrder | linux/mm/kmalloc.c:136-146 | The smallest size class that holds the block and its header, or -1 if and only if none does |
| Kmalloc.Allocator.constructor | linux/mm/kmalloc.c:92-102 | No pages, empty lists |
| Kmalloc.Allocator.Kmalloc | linux/mm/kmalloc.c:148-258 | With nobody else running while a page is fetched: returns a new live block of the smallest size class that holds it and keeps all others, or fails exactly when the size is too large or there is neither a free block nor a page |
| Kmalloc.Allocator.KfreeS | linux/mm/kmalloc.c:275-348 | Succeeds exactly on a live block of the given size (0 for any), whose life it ends; otherwise changes nothing |
| Timers.AddRefines | linux/kernel/sched.c:411-433 | Adding a timer to the delta-encoded list inserts it, in order and behind its equals, into the list of remaining times and leaves every other remaining time alone |
| Timers.DeleteRefines | linux/kernel/sched.c:435-457 | Deleting removes it from the list of remaining times and leaves all others alone |
| Timers.AddDelete | linux/kernel/sched.c:411-457 | Deleting undoes adding, down to the deltas |
| Timers.TickRefines | linux/kernel/sched.c:708-717 | A tick with a nonzero head lowers every remaining time by one |
| Timers.DueRefines | linux/kernel/sched.c:576-583 | The timers that the bottom half takes are exactly those at zero, in insertion order; the others keep their time |
| Timers.StepPending | linux/kernel/sched.c:411-457 | What any step does to a timer that it is not about, one round of timer_bh included: nothing but the tick lowers it, and only being the first and out of ticks ends it |
| Timers.RunPending | linux/kernel/sched.c:570-597 | Over every run of calls, ticks and single rounds of timer_bh, anything between two rounds: until a timer is fired it is pending with the right remainder, and it is fired when the ticks that were not lost make up its time |
| Timers.OneEachStep | linux/kernel/sched.c:411-457 | No timer comes to be on the list twice if it is added only while it is not on it |
| Timers.LostIff | linux/kernel/sched.c:708-717 | A tick is lost if and only if some pending timer has no ticks left |
| Timers.PromptLosesNone | linux/kernel/sched.c:570-597 | If timer_bh comes to its end after every tick before the next, and no timer is added with zero, no tick is lost |
| Timers.ZeroTimerDelays | linux/kernel/sched.c:411-433 | A timer added with zero ticks makes another one late |
| Timers.TimerList.constructor | linux/kernel/sched.c:409-410 | An empty list |
| Timers.TimerList.AddTimer | linux/kernel/sched.c:411-433 | The loop computes the specified insertion |
| Timers.TimerList.DelTimer | linux/kernel/sched.c:435-457 | The loop computes the specified deletion, says whether the timer was there, and gives its remaining ticks |
| Timers.TimerList.Tick | linux/kernel/sched.c:708-717 | If some pending timer has no ticks left, the list stays as it is and the tick is counted as lost; otherwise every pending timer has one tick less left and no timer comes or goes |
| Timers.TimerList.FireNext | linux/kernel/sched.c:576-579 | One round of timer_bh takes the first timer exactly if some pending timer is out of ticks, and then one that is |
| Timers.TimerList.TimerBh | linux/kernel/sched.c:570-597 | Fires exactly the due timers, in order |
| Scheduler.BestOnly | linux/kernel/sched.c:274-283 | The task that the loop selects is the only one that is runnable, has the greatest counter and comes first among its equals |
| Scheduler.Conserved | linux/kernel/sched.c:686-689 | Between recharges, for every run of ticks and calls of schedule in any order and every task, its counter plus the ticks it has run are what it started with plus the ticks it ran beyond its time |
| Scheduler.TicksUseTime | linux/kernel/sched.c:686-689 | Between recharges every tick uses up one unit of the time left to runnable tasks or is one beyond somebody's time |
| Scheduler.RunsWhatWasGranted | linux/kernel/sched.c:274-289 | From one recharge to the next every runnable task runs the ticks that it was granted and its overrun |
| Scheduler.PromptIff | linux/kernel/sched.c:686-689 | From any call of schedule on, nobody runs beyond their time if and only if every wanted reschedule comes before the next tick |
| Scheduler.ExactlyGranted | linux/kernel/sched.c:274-289 | From one recharge to the next every runnable task runs exactly the ticks that it was granted if and only if every wanted reschedule comes before the next tick |
| Scheduler.OverrunWitness | linux/kernel/sched.c:686-689 | One task with one tick left and two ticks before schedule is called: it runs for both |
| Scheduler.RechargeComes | linux/kernel/sched.c:274-289 | Nobody starves: any run with more ticks than time left and overruns has a recharge in it |
| Scheduler.RechargeGrants | linux/kernel/sched.c:285-288 | A recharge gives every runnable task its priority and puts a runnable task in charge |
| Scheduler.StaysBounded | linux/kernel/sched.c:285-288 | Over every run, counters of at most twice the priority stay so, for sleeping tasks too |
| Scheduler.SleeperGains | linux/kernel/sched.c:285-288 | Over every run, what a sleeping task's counter is short of twice its priority, or has in excess, is after n recharges the first distance divided by two to the n, rounded down |
| Scheduler.Cpu.Schedule | linux/kernel/sched.c:274-291 | The loops of schedule compute the specified state |
| Signals.ReturnRestores | linux/kernel/signal.c:217-249 | For every frame that setup_frame wrote, if the words above the stack pointer are kept, sigreturn restores all registers, the flags in the 0xCD5 bits, and the blocked mask without SIGKILL and SIGSTOP |
| Signals.ReturnIff | linux/kernel/signal.c:217-249 | For every frame that setup_frame wrote and that was kept, sigreturn resumes if and only if the saved selectors are null or of user mode, and otherwise kills the task |
| Signals.SelectorWitness | linux/kernel/signal.c:217-249 | A program with 0x28 in fs is killed by the return from a handler that kept everything |
| Signals.ResumeContext | linux/kernel/signal.c:217-249 | The context check accepts every context that setup_frame writes for user registers |
| Signals.ReturnCode | linux/kernel/signal.c:294-297 | Whatever was there before, the three overlapping stores leave exactly the code that makes the sigreturn system call |
| Signals.FrameCalls | linux/kernel/signal.c:254-297 | The frame holds the return address, the signal number and the return code where the handler and its return look for them |
| Signals.CallReturns | linux/kernel/signal.c:254-297 | A handler that has kept its frame and comes to its return instruction gets, through the code in the frame, to the sigreturn call with the stack pointer at the saved context |
| Signals.RestoredBits | linux/kernel/signal.c:243-244 | The flags that are restored are the bits of 0xCD5 |
| Signals.EntersLast | linux/kernel/signal.c:400-425 | The program enters the handler of the highest signal with its number as the argument |
| Signals.ReturnStep | linux/kernel/signal.c:217-301 | Returning from the handler of the last frame starts what the frame below it saved |
| Signals.Unwind | linux/kernel/signal.c:217-425 | For every list of caught signals, the handlers run one after another from the last to the first, each on its own frame, and each return restores the mask saved in its frame |
| Signals.HandlerStarts | linux/kernel/signal.c:254-422 | Where each handler starts: in the user segments, with the number of its signal as its argument, the address of the return code in its frame as its return address, its stack pointer one frame from the next, so that frames do not overlap, and with exactly these signals blocked: the mask to be put back and the masks of its own and all signals still to come |
| Signals.AllReturned | linux/kernel/signal.c:217-425 | After the last return the program goes on with exactly its registers (flags in the 0xCD5 bits), its blocked mask, and its stack untouched |
| SignalCalls.NeverBlocked | linux/kernel/signal.c:50-94 | In no state reachable by any sequence of sigprocmask, ssetmask, sigsuspend, signal, sigaction, delivery and sigreturn is SIGKILL or SIGSTOP blocked |
| SignalCalls.MaskAfter | linux/kernel/signal.c:50-94 | A signal that may be blocked is blocked after a call if and only if it was or is asked for (block), it was and is not asked for (unblock), or it is asked for (every other call) |
| SignalCalls.DeliveredEffect | linux/kernel/signal.c:404-420 | Delivery blocks exactly the masks of the signals delivered and takes away exactly the handlers that are for one signal only |
| SignalCalls.FatalSignals | linux/kernel/signal.c:352-380 | The default action ends every process but init, for all signals but SIGCHLD, SIGCONT and SIGWINCH, which are ignored, and SIGSTOP, SIGTSTP, SIGTTIN and SIGTTOU |
| SignalCalls.Task.Sigprocmask | linux/kernel/signal.c:50-80 | Which signals are blocked after each of the three ways to change the mask; SIGKILL and SIGSTOP never become so |
| SignalCalls.DeliveredSafe | linux/kernel/signal.c:404-420 | Delivering any list of signals blocks neither |
| SignalCalls.ChooseNext | linux/kernel/signal.c:321-390 | One round of the first loop of do_signal takes the lowest deliverable signal, which is one that no caught signal taken before masks, and keeps the choice right |
| SignalCalls.AllChosen | linux/kernel/signal.c:321-390 | When the loop ends no signal that it takes is fatal, the caught ones that it takes are the chosen ones, and a signal is still pending if and only if it was blocked or a chosen lower one masks it |
| SignalCalls.Lowest | linux/kernel/signal.c:321-325 | The lowest signal of the set |
| SignalCalls.Task.Sigaction | linux/kernel/signal.c:177-210 | Refuses SIGKILL, SIGSTOP, numbers out of range and handlers outside user space, else sets handler, mask (with the signal itself unless SA_NOMASK) and one-shot flag of this action and no other, and discards an ignored pending signal |
| SignalCalls.Task.CheckPending | linux/kernel/signal.c:140-157 | Discards the pending signal exactly when its new action ignores it |
| SignalCalls.Task.Collect | linux/kernel/signal.c:321-390 | The first loop of do_signal: the task dies if and only if the loop takes a fatal signal; otherwise the caught signals that it takes are chosen, and exactly the signals that were blocked or that a chosen lower one masks are still pending |
| SignalCalls.Task.Stack | linux/kernel/signal.c:400-425 | The second loop of do_signal stacks one frame for each chosen signal in ascending order and enters the last handler, with its signal's number as the argument and the way back to the return code, and fails if and only if the stack has no room for them all |
| SignalCalls.Task.DoSignal | linux/kernel/signal.c:312-425 | do_signal as a whole: the task dies if and only if a fatal signal is taken or the stack has no room for the frames; otherwise nothing is called and nothing changes, or exactly the chosen signals get frames; then for every way in which the handlers come back with their frames kept, they start from the highest signal down, and at the end the interrupted program goes on with its registers, flags in the 0xCD5 bits, mask and stack |
| SignalCalls.Task.SysSigreturn | linux/kernel/signal.c:217-249 | Takes the last frame off, or kills the task over a bad one |
| ExecArgs.StringInPlace | linux/fs/exec.c:268-311 | In the joined strings, the i-th string stands at the sum of the lengths before it |
| ExecArgs.ArgPages.constructor | linux/fs/exec.c:539-560 | No pages allocated, all bytes zero |
| ExecArgs.ArgPages.NextPlace | linux/fs/exec.c:374-386 | Steps down by one byte, allocating a zero page when it enters a missing one; no byte changes |
| ExecArgs.ArgPages.CopyString | linux/fs/exec.c:373-388 | Copies one string with its zero backwards across page boundaries |
| ExecArgs.ArgPages.CopyStrings | linux/fs/exec.c:345-393 | Returns where the strings begin, one behind the other, with no other byte changed, or 0, and that only if they do not fit or memory ran out; no page is lost |
| ExecArgs.SkipString | linux/fs/exec.c:300-300 | The walk ends just behind the zero of the string it started at |
| ExecArgs.FillTable | linux/fs/exec.c:298-308 | Entry i points to exactly the i-th string, a null pointer follows, and no other word is touched |
| ExecArgs.PutHeader | linux/fs/exec.c:287-296 | The count and, unless for iBCS, the pointers to the tables |
| ExecArgs.CreateTables | linux/fs/exec.c:268-311 | The stack holds the count and two null-terminated tables whose i-th pointers lead to exactly the i-th argument and environment string; all words lie below the strings |
| ExecArgs.PassArguments | linux/fs/exec.c:268-393 | Both together, for every argument and environment list: if the strings fit and pages are free it succeeds; the strings then end where they should, the stack pointer is aligned, the count and the pointers to the tables are in place, the tables lead to exactly the original strings, and every word lies below the strings |
| Pipes.ReadFront | linux/fs/pipe.c:48-58 | A chunk that is read is the front of the ring's contents, and the rest stays |
| Pipes.WriteBack | linux/fs/pipe.c:99-108 | A chunk that is written goes behind the ring's contents, across the wrap |
| Pipes.StepInv | linux/fs/pipe.c:24-116 | Every step of readers and writers, cut at every sleep and between chunk and copy, keeps start and length in range and the ring equal to the bytes written and not yet read |
| Pipes.RunInv | linux/fs/pipe.c:24-116 | So does every run |
| Pipes.ReadIsPrefix | linux/fs/pipe.c:24-116 | For every interleaving the bytes read are a prefix of the bytes written, in order |
| Pipes.SmallWriteContiguous | linux/fs/pipe.c:71-116 | When a write of at most PIPE_BUF bytes lets the lock go, all of it stands at the end of the stream in one piece |
| Pipes.WriterAlone | linux/fs/pipe.c:97-111 | While a writer copies its chunks, only its own steps are possible |
| Pipes.SmallWriteSlice | linux/fs/pipe.c:71-116 | For every interleaving from an empty pipe: the bytes of a write of at most PIPE_BUF bytes stand together in the final stream, from where the stream ended when the write began; all of them if the write has ended, else the first ones with nothing after; and so a reader gets them together |
| Pipes.Progress | linux/fs/pipe.c:24-116 | The holder of the lock can always go on; otherwise a read can begin if and only if the pipe holds a byte, and a write if and only if there is room for all of it, when it is a new one of at most PIPE_BUF bytes, or for one byte |
| Pipes.WorkEnds | linux/fs/pipe.c:24-116 | Every step of the holder leaves it less to do, so that the lock is given up |
| Pipes.Pipe.constructor | linux/fs/pipe.c:24-116 | An empty pipe |
| Pipes.Pipe.Read | linux/fs/pipe.c:47-61 | The loop takes as many bytes as asked for and there, from the front, across the wrap |
| Pipes.Pipe.Write | linux/fs/pipe.c:98-110 | The loop appends as many bytes as fit, across the wrap |
| Pipes.Pipe.CopyInto | linux/fs/pipe.c:104-108 | A chunk replaces exactly its part of the buffer |

## Left out

- The Rust rewrite of the kernel under `src/`: start-up, port input and output, self-tests and dispatch. Of the C kernel: drivers, networking, ipc, ptrace, modules, mount, stat, select and the binary loaders.
- `copy_flock`, `F_SETLKW` and its wake-up: requests arrive with checked absolute ranges, and waiting calls are not part of the runs.
- Shared and file-backed pages, `try_to_share`, page directories (flattened to one table per space), `swapoff`, more than one swap area, and which page `swap_out` tries next.
- The first halves of `get_empty_page`, `do_no_page` and `swap_in`, up to the sleep, exist as steps of CowSwap and not as methods; the second halves are `PutPage` and `SwapInRead`.
- `huft_free`, memory limits of `huft_build` (return code 3), the gzip header, `fill_inbuf`, encryption and the pkzip formats of unzip.
- Deflate streams that the reference decoder rejects: nothing is claimed about them, except that `Unzip` accepts only output with the right checksum and length.
- `set_blocksize`, `invalidate_buffers`, `check_disk_change`, `breada` and the choice of `grow_buffers` against reuse in getblk; one block size per device is assumed.
- Mount crossing in `iget`, pipe inodes beyond their allocation, `sync_inodes` and `invalidate_inodes`.
- Inode references held by areas (line 436 of mmap.c drops a merged area without `iput`), `mprotect`, and the argument checks at the head of `do_mmap`.
- Locking of the kmalloc lists against interrupts, and the statistics of the size table.
- Load averages, the clock adjustment code, interval timers, `sleep_on` and `wake_up`.
- System call restart, tracing, stopping and core dumps in `do_signal`; `sa_restorer` stacks. Signal sets and flag words are sets of numbers, stack words are typed rather than bytes.
- Stack words written by `create_tables` are kept apart from the bytes of the strings, which lie above them.
- Reading from an empty pipe, end of file and signals: the interleaved steps cover blocking as a step that is not possible yet; error returns are not modelled.
- HuftBuilder.Build: does not follow the loop for over-subscribed codes, for which the source returns before it.
- Inflate.Inflater.Inflate: states nothing when fewer than two bytes follow the stream, where the source can ask for input that is not there.
- BitReader.Reader.NeedBits: models the end of the input as a refusal; the source halts the machine.
- SlidingWindow.Window.Copy: for a distance beyond the bytes produced so far it states only that the window stays usable and the length is right.
- BufferQueues.Cache.Getblk: stops where the source sleeps or starts again; what comes after is the next step of BufferCache.
- BufferQueues.Cache.Brelse: is for a buffer that is not locked; waiting for one is a separate step.
- InodeTable.Table.Iput: stops at the call of `put_inode`; the rest is the steps PutReturn and PutDelete of InodeCache.
- InodeTable.Table.GetEmptyInode: stops where the source sleeps or starts again.
- VmAreas.AddressSpace.DoMmap: starts after the argument checks; for a length of TASK_SIZE without MAP_FIXED it states only that the list is no longer in order.
- Timers.TimerList.AddTimer: is for a timer that is not on the list; the source makes the list circular otherwise.
- Timers.TimerList.TimerBh: is for functions that leave the list alone and no tick meanwhile; otherwise it is the steps Fire and Leave.
- Kmalloc.Allocator.Kmalloc: is for nobody else running while a page is fetched, so that the source never gives up after its tries; interleavings are the steps of RunInv.
- RecordLocks.LockOwnCorrect: is for entries in order; for others LockOwnExact and LockOwnSound say what becomes of the bytes of the requested kind, and of another kind only that none are gained.
- RecordLockTable.LockItCorrect: is for lists in order, like LockOwnCorrect; for others see LockItExact.
- SignalCalls.Task.Stack: is for a program on the ordinary user stack.
- SignalCalls.Task.DoSignal: is for a program on the ordinary user stack, without tracing, stopping and restarted system calls.
- Pipes.Pipe.Read: is the copying loop without the wait before it.
- Pipes.Pipe.Write: is the copying loop without the waits between its rounds.
