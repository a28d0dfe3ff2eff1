# nx88 in Dafny

A model of nx88, an emulator of the Motorola 88100 processor with 88200 memory
management, and proofs about it. Five parts are covered, each both as a
specification on values and, where the program updates state in place, as a
class whose methods are proved against that specification.

- **Memory and translation** (`Memory`, `Mmu`, `TlbTransparency`, `TlbRuns`,
  `MmuUnit`, `CacheRuns`, `BootTables`, `TranslationLaws`). Physical memory is a
  map from folded address to byte. `Mmu.Resolve` is translation that walks the
  tables every time, `Mmu.Translate` the one with the direct-mapped untagged cache;
  over every disciplined run they cannot be told apart, and the tables the boot
  loader builds walk to exactly the intended map. `TranslationLaws` states the walk,
  the unit's registers and write protection over again in masks, shifts and literal
  addresses, and proves the two the same.
- **Processor** (`Cpu`, `Driver`, `Processor`, `Exceptions`, `Runs`, `ClockRuns`,
  `DeliveryLaws`, `AccessLaws`). Steps, exception entry and return, page faults that
  abort and restart, delay slots and the clock gates, over whole runs of the driver
  loop. The last two say where entries go, exactly when interrupts are taken, and
  what instructions do to bytes and registers, by bit and register number.
- **Two interpreters** (`Reference`, `PyMemory`, `Refinement`). The Python decoder
  and interpreter are modelled as the reference; the C step refines them word by
  word and run by run.
- **Console services** (`Telnet`, `Lines`, `Terminal`, `InputRing`, `Syscalls`,
  `Descriptors`, `ConsoleLaws`). The wire, the line discipline and its echo, the input ring,
  calls that fault first and retry, and per-process descriptors.
- **Disk** (`Ffs`, `Namei`, `FfsLayout`, `DiskLabel`). Inode placement, block mapping,
  file contents, path names and the synthetic disk label. `FfsLayout` writes inodes,
  blocks of addresses, files and directories out byte by byte and proves that the
  reader finds them again.

`Words` holds 32-bit arithmetic and bitwise operators on integers with their
arithmetic meaning.

Integers are unbounded and every 32-bit wrap is written out (`Words.Wrap`).
Uninitialised or allocated-on-demand memory reads as zero, as `calloc` gives it.

## Properties that hold under a condition

Where a property fails, the code is kept and the exact condition is proved:

- The cache is invisible over user pages exactly when its entries agree with the
  tables (`TlbTransparency.InvisibleExactlyWhenFresh`). Over runs, of the unit
  (`TlbRuns.Disciplined`) and of the whole processor (`CacheRuns.Steady`), this
  asks that no access relies on a page that has changed since the last flush; a
  run that does is in `TlbRuns.StaleRunExample`.
- A fault or trap returns to the right continuation exactly outside a delay slot
  or when the dropped branch was to the next instruction
  (`Exceptions.SlotExceptions`, `Exceptions.PreciseRestart`; a machine that loses
  its branch is in `Exceptions.SlotFaultExample`). An rte in a delay slot goes to
  the pending branch, so nesting asks that no handler has one there.
- The two interpreters agree on every word the decoder identifies; on the others
  they agree exactly outside `Refinement.Tolerated` (`Refinement.RejectedWords`,
  `Refinement.ToleratedExample`).
- A byte pushed back onto the console wire is decoded again, so pushback is
  lossless exactly for bytes other than 0xFF (`Terminal.PushbackLosslessIff`,
  `Terminal.LostByteExample`). `Terminal.Safe` input avoids the case.
- The echo follows the buffer exactly when no undrawn byte is taken into it
  (`Lines.EchoInStepIff`, `Lines.ControlKeyExample`): an unechoed control byte is
  still rubbed out on screen. The statement leaves out tabs, and input with more
  undrawn bytes than the prompt is long: there the erases can run into the left
  edge, which hides the difference again.
- A read stores every byte it took as long as none before the last switches
  translation on or off by landing on the area pointer's own valid bit
  (`Syscalls.ReadDelivers`, `Syscalls.PointerSwitchExample`). Which stored bytes
  do is exact (`Syscalls.PointerBitKept`), and so is which buffers deliver every
  string, where no two bytes share a place (`Syscalls.DeliversAllIff`).
- A write sends all it reports written exactly up to 2^20 bytes
  (`Syscalls.WriteSends`, `Syscalls.LongWriteExample`).
- A process gets its own descriptor set back exactly when that set was not blank,
  or its parent has none filled in and the live one is the same
  (`Descriptors.ReturnsOwnSetIff`, `Descriptors.BlankSetExample`).
- The disk label describes no more than the file holds exactly when the file
  holds a cylinder (`DiskLabel.BlocksFitIff`, `DiskLabel.SmallFileExample`).
- An inode is read from its place exactly when the place fits in 32 bits
  (`Ffs.PlacementExact`, `Ffs.FarInodeExample`); a file whose size wraps when
  rounded up to a block gets a block count of 0 (`Ffs.BlockCount`,
  `Ffs.HugeFileExample`) and a buffer as the allocator left it.

## Model

| member | source | states |
|---|---|---|
| Memory.CphysIdempotent | emu/nx88.h:327-337 | folding a physical address twice is folding it once, so folded addresses name bytes |
| Memory.CphysKeepsOffset | emu/nx88.h:327-337 | folding never moves a byte within its page |
| Memory.CphysMovesPages | emu/nx88.h:327-337 | two addresses of one page are folded by the same displacement |
| Memory.CphysIsPageFold | emu/nx88.h:327-337 | the three facts together: folding is a map of pages to pages, for both memory layouts |
| Memory.AliasIff | emu/nx88.h:347-356 | a byte stored at one address is read at another exactly when both fold to the same byte |
| Memory.CphysAliases | emu/nx88.h:327-337 | two addresses name one byte exactly when they are equal, one is a view of the other, or they are views of the same byte: the interleaved view and the 64 windows in closed form |
| Memory.WordBytesDistinct | emu/nx88.h:367-376 | the four bytes of a word never alias one another, page-crossing words and folded windows included |
| Memory.WordRoundTrip | emu/nx88.h:357-376 | a word stored at any address, aligned or not and across pages, reads back |
| Memory.WordFrame | emu/nx88.h:367-376 | a word store changes no byte but the four it touches |
| Memory.WordReadFrame | emu/nx88.h:357-366 | a word read depends on the four bytes it touches only |
| Memory.WordInPage | emu/nx88.h:357-376 | the one-page fast path of word access is the byte-by-byte path |
| Memory.PagedMemory.PageOf | emu/nx88.h:339-345 | allocating a page on first touch changes no byte of the flat store |
| Memory.PagedMemory.Read8 | emu/nx88.h:347 | a byte read is the flat store's byte at the folded address |
| Memory.PagedMemory.Write8 | emu/nx88.h:351-355 | a byte write updates the flat store at the folded address only |
| Memory.PagedMemory.Read16 | emu/nx88.h:378 | halfword reads refine the flat store |
| Memory.PagedMemory.Write16 | emu/nx88.h:380-383 | halfword writes refine the flat store |
| Memory.PagedMemory.Read32 | emu/nx88.h:357-365 | word reads, fast path or byte path, refine the flat store |
| Memory.PagedMemory.Write32 | emu/nx88.h:367-376 | word writes, fast path or byte path, refine the flat store |
| AccessLaws.AddressesFold | emu/nx88.h:327-337 | 2 to 3 GB is RAM from 0 on under the real memory model, the 64 windows of 8 KB from 0xF9000000 on are one page pair, every other address is itself |
| AccessLaws.WordIsBytes | emu/nx88.h:357-365 | a word is its four bytes from its address on, most significant first, around the end of the address space too |
| AccessLaws.HalfIsBytes | emu/nx88.h:378 | a halfword is its two bytes, most significant first |
| AccessLaws.HalfRoundTrip | emu/nx88.h:378-383 | a halfword stored reads back and changes its own two bytes only |
| TlbTransparency.HitIsCurrent | emu/mmu.c:281-284 | a hit on a page not known to have changed holds the very page, and protection bit, a walk would find |
| TlbTransparency.TranslateTransparent | emu/mmu.c:252-403 | from a cache coherent but for a set of changed pages, translating any other page gives the address, fault record and counters of one that always walks, write-protect faults on hit and miss included, and leaves the cache as coherent |
| TlbTransparency.InvisibleExactlyWhenFresh | emu/mmu.c:361-374 | over user pages the cache cannot be told from walking if and only if every entry agrees with the tables |
| TlbTransparency.SameWalk | emu/mmu.c:143-160 | what a walk finds depends on the tables, area pointers, mode and device map only |
| TranslationLaws.DescriptorIsWalk | emu/mmu.c:105-119 | the walk is the manual's: area pointer, segment and page descriptor by masks 0xFFFFF000, 0x3FF and bit 0, through the biased copy where the kernel's own entry is not valid |
| TranslationLaws.TranslationByManual | emu/mmu.c:252-403 | walking translation of every address, side and state is the one written with the hardware's masks, shifts and literal register addresses |
| TranslationLaws.FirstMapping | emu/mmu.c:133-139 | the device list answers with the first entry for the page |
| TranslationLaws.NoMapping | emu/mmu.c:133-139 | and with none if it lists none |
| TranslationLaws.PointerStoreSettles | emu/devices.c:193-199 | after a store to either area pointer of either unit, whatever was cached, the next access of every address is the walk in the new state |
| TranslationLaws.CommandSettles | emu/mmu.c:188-191 | so it is after any command but the two probes |
| TranslationLaws.OtherStoresKeep | emu/devices.c:180-201 | a store to any other address, and a probe, leaves the cache as it was |
| TranslationLaws.OtherStoresStore | emu/devices.c:180-201 | any store but a probe command is the word in memory and nothing else |
| TranslationLaws.BusStoreEmpties | emu/devices.c:180-201 | from the processor: the four area pointers and the two command registers, and no other address, empty its cache |
| TranslationLaws.ProbeReports | emu/mmu.c:162-187 | a probe leaves status 1 and the address, without bits 28 to 23 for kernel space, or status 0 and where it missed, of the table its command names |
| TranslationLaws.ProtectedStoreFaults | emu/mmu.c:361-401 | where bit 2 of the page's descriptor is set, each of the six storing operations leaves a write fault of its address and width and changes no register and no byte, on a miss and on every hit after it |
| TranslationLaws.OtherAccessReaches | emu/mmu.c:361-403 | each load there, and every access where the bit is clear, reaches the frame the descriptor names, on a miss and on a hit |
| TlbRuns.RunTransparent | emu/mmu.c:162-197 | over every run of translations, mode changes, word and byte stores, commands, probes and mappings in which no access relies on a page changed since the last flush, the cached unit returns what the uncached one does and ends in the same state |
| TlbRuns.RunFromReset | emu/mmu.c:194-197 | the same for every such run from an empty cache |
| TlbRuns.StaleRunExample | emu/mmu.c:361-368 | access, change of the descriptor, access with no flush between: the cached unit answers from the old page |
| TlbRuns.StaleRunStart | emu/mmu.c:105-119 | there are tables, in every user mode, from which that run starts |
| TlbRuns.ModeChangeIsClean | emu/mmu.c:352-356 | switching between user and supervisor needs no flush when both area pointers name one table |
| TlbRuns.WalkFrame | emu/mmu.c:105-119 | a walk reads its two descriptors' bytes and nothing else |
| TlbRuns.StoreOutsideTablesIsClean | emu/devices.c:180-201 | a store that touches no walked descriptor and no register of the unit needs no flush |
| MmuUnit.Unit.Flush | emu/mmu.c:194-197 | both banks come out empty |
| MmuUnit.Unit.DevmapLookup | emu/mmu.c:133-139 | the loop finds the first mapping listed for the page, or none |
| MmuUnit.Unit.DevmapAdd | emu/mmu.c:121-131 | a listed page is remapped in place, a new one appended while there is room, nothing else changes |
| MmuUnit.Unit.RaiseCow | emu/mmu.c:217-228 | a copy-on-write fault is recorded exactly for a store under process mode with no fault pending |
| MmuUnit.Unit.KernelLookup | emu/mmu.c:308-348 | kernel addresses: device map, cached table, linear fall-back, cache filled as specified |
| MmuUnit.Unit.ScratchBase | emu/mmu.c:242-250 | the scratch base is latched once, from a device-space word only |
| MmuUnit.Unit.HighLookup | emu/mmu.c:272-307 | device space: the per-process window uncached, the scratch pair through the kernel's table, identity otherwise |
| MmuUnit.Unit.UserLookup | emu/mmu.c:350-403 | user addresses: hit, walk, fault or fall-through, with the cache and the fault record as specified |
| MmuUnit.Unit.Translate | emu/mmu.c:252-403 | the in-place unit computes the specified answer, state and cache for every address |
| MmuUnit.Unit.StoreWord | emu/devices.c:180-201 | a word store does to memory and cache what the specification says, flushing exactly on area-pointer writes and non-probe commands |
| MmuUnit.Unit.Command | emu/mmu.c:162-192 | a probe reports status and address, or a miss and its address, without touching the cache; any other command empties it |
| MmuUnit.Unit.Drive | emu/mmu.c:143-403 | every such run of the in-place unit from reset returns what walking on every access returns |
| CacheRuns.LoopAlike | emu/sysmode.c:339-453 | one turn of the driver loop that relies on no changed page does the same on two machines that differ in their caches, and leaves both caches flushed or coherent for the tables it ran under |
| CacheRuns.TurnTwins | emu/mmu.c:162-197 | after a turn both caches are coherent but for the pages it changed; a store that flushes settles all of them |
| CacheRuns.LapsTransparent | emu/sysmode.c:339-453 | over every run of the driver loop in which no turn relies on a page changed since the last flush, the machine with a cache has the registers, memory, faults, clock, traps and end of one whose cache is emptied before every turn |
| CacheRuns.LapsFromReset | emu/mmu.c:194-197 | the same from reset |
| CacheRuns.UncachedWalks | emu/mmu.c:252-403 | in such an emptied turn the fetch and the data access are what walking the tables gives |
| BootTables.ReadAfterSet | emu/mmu.c:10-26 | a table word written is read back, every other table word is unchanged |
| BootTables.DescriptorWritten | emu/mmu.c:20-25 | writing a page descriptor maps that page and no other, in this table and in the other, and keeps the tables disjoint |
| BootTables.SegmentAdded | emu/mmu.c:14-19 | adding a zeroed page-table page maps nothing new and shares no page with either table |
| BootTables.DirectMaps | emu/mmu.c:22-25 | the descriptor written for va with offset off translates va to va - off modulo 2^32 |
| BootTables.WalkIsFind | emu/mmu.c:105-119 | the hardware walk of a built table is the abstract lookup, for every page |
| BootTables.Loader.MapRangeOff | emu/mmu.c:10-26 | the loop maps exactly the pages of [lo, hi) to va - off, leaves the rest and the other table as they were, and takes no more pool pages than it needs |
| BootTables.Loader.BuildTables | emu/mmu.c:45-80 | walking either built table gives exactly the intended map: the two kernel ranges, the three device windows, a miss elsewhere; no page-table page is shared and the area pointers name the tables |
| Refinement.ArithAgrees | emu/cpu.c:1445-1452 | each arithmetic operation stores the word Python stores, or traps as it does |
| Refinement.FieldAgrees | emu/cpu.c:806-831 | each bit-field operation agrees with Python's for all widths and offsets |
| Refinement.CondAgrees | emu/cpu.c:792-804 | branch conditions agree |
| Refinement.MemAgrees | emu/devices.c:119-132 | every load, store and exchange width agrees with the Python reference |
| Refinement.ExecMatches | tools/cpu.py:142-269 | one decoded instruction: same registers, control registers, memory and branch, or the same trap |
| Refinement.StepRefines | emu/cpu.c:1414-1631 | one C step from any in-scope state reaches the state Python's step reaches, or the same trap from an unchanged state |
| Refinement.RunRefines | tools/cpu.py:109-134 | so does every run of any length |
| Refinement.RejectedWords | tools/m88k.py:159-270 | on a word the decoder rejects, C traps as a bad instruction if and only if the word is outside four groups its dispatch tolerates |
| Refinement.AcceptedWords | tools/m88k.py:159-270 | of the words the decoder knows, floating point included, C takes exactly tbnd and the decoder's ff1 and ff0, which C numbers differently, for bad instructions |
| Refinement.ToleratedExample | emu/cpu.c:1533-1542 | a bit-field word with no sub-operation, wherever it is stored: C runs it, Python refuses it |
| AccessLaws.HighBitIs | emu/cpu.c:1571-1574 | the bit found is 32 for no bit, else the exponent of the power of two at or below the number |
| AccessLaws.FindFirst | emu/cpu.c:1571-1574 | ff1 gives the highest set bit of its source register and ff0 the highest clear one, and nothing else changes |
| AccessLaws.SignedDivision | emu/cpu.c:1567 | signed division stores the quotient rounded toward zero, traps on zero, and is undefined exactly where the quotient does not fit |
| AccessLaws.ControlTransfers | emu/cpu.c:1457-1459 | load, store and exchange of any of the 64 control registers, floating-point names included: the exchange gives the value before |
| AccessLaws.MailboxAnswers | emu/devices.c:160-168 | a non-zero byte stored in the mailbox is taken and answered five bytes on; zero, or a byte anywhere else, is only stored |
| AccessLaws.MailboxWord | emu/devices.c:160-193 | a word stored there is a command exactly if its first byte is not zero |
| AccessLaws.CallArguments | emu/cpu.c:199-215 | a kernel call begins at its function with its arguments in r2 to r6 and the return address in r1, marked as a call, all else of the machine as it was |
| AccessLaws.CallReturns | emu/cpu.c:216-236 | a call that runs into its return address within thirty million instructions is those instructions, with no interrupt between |
| AccessLaws.CallStops | emu/cpu.c:216-236 | a trap ends a call where it is, and so does the limit |
| PyMemory.PutBytesAt | tools/cpu.py:55-62 | writing a byte string changes exactly its own addresses |
| PyMemory.SparseMemory.Read | tools/cpu.py:45-53 | the chunked read over sparse pages returns the flat store's bytes for any length and alignment |
| PyMemory.SparseMemory.Write | tools/cpu.py:55-62 | the chunked write over sparse pages is the byte-string write on the flat store |
| Exceptions.EntryFrame | emu/cpu.c:836-955 | every kind of entry saves the PSR and leaves the pipeline registers invalid, valid, valid in the order rte needs |
| DeliveryLaws.EntryAddresses | emu/cpu.c:836-881 | vector 0 enters at VBR, and any two vectors enter eight bytes for each number between them apart, modulo 2^32, for interrupts and traps |
| DeliveryLaws.FaultVectors | emu/sysmode.c:357-358 | a data fault enters where vector 3 enters, a fetch fault where vector 2 does |
| DeliveryLaws.InterruptVector | emu/cpu.c:1332-1365 | both clock interrupts enter where vector 1 enters |
| DeliveryLaws.FaultReported | emu/cpu.c:915-931 | the unit that missed, and no other register before the entry, has the address in its fault address register and a page fault in its status |
| Exceptions.RteInstruction | emu/cpu.c:1581-1626 | the step function, fetching an rte word, does to the processor exactly what the summary of rte says, delay slot included |
| AccessLaws.ReturnPicks | emu/cpu.c:1581-1603 | rte gives back the PSR and goes on at the first pipeline register with its valid bit, or the last, without its two low bits |
| Exceptions.RteResumes | emu/cpu.c:1581-1626 | rte always restores the PSR; outside a delay slot it resumes at the interrupted, faulting or trap-plus-four pc if and only if that pc is word-aligned; in a slot it goes to the pending branch |
| Exceptions.NestedExceptionsReturn | emu/cpu.c:836-955 | any well-nested run of interrupts, faults and traps whose handlers save and restore, and do not rte in a delay slot, brings back PSR and resumption address at every level |
| Exceptions.ProgramUndisturbed | emu/cpu.c:1581-1603 | between its own instructions a program sees its pc move past its traps and nothing else |
| Exceptions.LanesExact | emu/cpu.c:933-938 | the byte lanes a data fault enables are exactly the bytes of an aligned access |
| Exceptions.FaultDescribed | emu/cpu.c:915-943 | after a data fault the pipeline holds one valid transaction with the access's address, direction and lanes; after a fetch fault none |
| Exceptions.EntryMode | emu/cpu.c:855 | every entry sets supervisor, interrupt-disable and freeze and keeps every other bit of the PSR |
| Exceptions.SlotExceptions | emu/cpu.c:865-883 | a fault or trap in a delay slot comes back to the right continuation if and only if no branch was pending, or a trap's branch was to the next instruction |
| Exceptions.SlotFaultExample | emu/cpu.c:955 | from a machine about to run a delayed branch at the end of a mapped page: the branch runs, its slot on the next page faults, and after delivery, any restoring handler and its rte the program falls through and the branch is lost |
| Exceptions.MemOpAborts | emu/devices.c:16-29 | a load, store or exchange that faults has changed no register and no byte |
| Exceptions.UnmappedFetchFaults | emu/mmu.c:379-396 | a fetch from a page nobody maps faults at its own pc and leaves the processor as it was |
| Exceptions.FaultIsPrecise | emu/cpu.c:1414-1614 | an instruction that raises a page or copy-on-write fault changes no register, control register, pc, pending branch or byte of memory |
| Exceptions.PreciseRestart | emu/sysmode.c:339-360 | after a fault, its delivery, a handler that restores registers and pipeline, and the executed rte: registers and PSR are the first try's, it is fetched again if and only if word-aligned, and the program then goes on where it would have if and only if no branch was pending or it was to the next word |
| Runs.StepSequences | emu/cpu.c:1616-1626 | every uninterrupted step moves pc and pending branch by one rule |
| Runs.SlotUninterrupted | emu/cpu.c:1319-1363 | neither interrupt is taken while a branch is pending |
| Runs.DelayedBranch | emu/cpu.c:1616-1626 | in every fault-free run a taken delayed branch executes exactly the next instruction and then its target, whatever the slot holds |
| Runs.PlainBranch | emu/cpu.c:1517-1532 | a taken plain branch goes to its target at once, an untaken one falls through, and none is left pending |
| Runs.SlotEndsPending | emu/cpu.c:1617-1619 | no branch stays pending after its slot |
| Runs.RunAligned | emu/sysmode.c:339-453 | pc and pending branch stay word-aligned over every run of the driver loop, interrupts, fault and trap deliveries included, with an aligned vector base |
| Runs.LapsAligned | emu/sysmode.c:339-453 | so are they wherever any number of turns of the loop ends |
| ClockRuns.TurnClock | emu/cpu.c:1319-1367 | in every turn a hard tick takes one armed deadline, a soft tick moves the limit on, and anything else only programs deadlines |
| ClockRuns.HardClockBound | emu/cpu.c:1346-1363 | in every run hard-clock deliveries never exceed compare-register writes plus one |
| ClockRuns.LapsClock | emu/cpu.c:1346-1363 | so wherever any number of turns of the loop from reset ends |
| ClockRuns.NoEarlyTick | emu/nx88.h:177-178 | no delivery precedes its deadline, compared through 32-bit wrap-around less than 2^31 apart |
| ClockRuns.SoftSpacing | emu/cpu.c:1319-1337 | two software interrupts are at least a period of counts apart |
| ClockRuns.GatedDelivery | emu/cpu.c:1319-1363 | nothing is delivered with interrupts disabled, in a delay slot, in a kernel call or over a pending fault; a soft one needs a bit above the level; delivery shuts the gate |
| DeliveryLaws.TurnDelivers | emu/sysmode.c:339-453 | a turn with a fault pending enters its handler; a trap enters at the trapping instruction unless the instruction is unimplemented or there is no vector table, and then the driver halts |
| DeliveryLaws.SoftTakenIff | emu/cpu.c:1319-1333 | a software interrupt is taken if and only if the gate is open, bit 5 of the mask register is set, a bit is pending above the level and a period has passed |
| DeliveryLaws.HardTakenIff | emu/cpu.c:1351-1356 | the clock is taken if and only if no software interrupt is, the gate is open and the looks for one raised no fault, bit 6 of the mask register is set and the armed deadline has been reached, within 2^31 of it |
| DeliveryLaws.CountedTakenIff | emu/cpu.c:1351-1356 | paced by the count alone, if and only if the count has reached the next tick instead |
| DeliveryLaws.LooksRaiseNothing | emu/mmu.c:308-348 | under the real memory model, looking at the level and the pending bits raises no fault |
| DeliveryLaws.DeliveryCounts | emu/cpu.c:1328-1365 | what a delivery leaves in the clock: its source bits, the next time it may come, the deadline used up, one more tick |
| DeliveryLaws.ClockRegisters | emu/devices.c:10-29 | a store to the compare, enable or source register changes just that, and a store anywhere else nothing of the clock |
| ClockRuns.AboveLevelMeans | emu/cpu.c:1324 | the comparison used for pending-above-level is the source's mask test |
| Processor.Node.DevWrite | emu/devices.c:185-201 | a word store on the device bus, clock registers and translation unit updated in place, reaches the specified machine |
| Processor.Node.Access | emu/devices.c:119-132 | the transfer switch, working on the register array, memory and bus, reaches the specified machine for every width and exchange |
| Processor.Node.Memop | emu/devices.c:11-29 | translation through the unit in place, abort with the fault completed, or the transfer: the specified outcome, and a fault touches no register and no byte |
| Processor.Node.Exception | emu/cpu.c:836-857 | the in-place interrupt entry reaches the specified state |
| Processor.Node.TrapEntry | emu/cpu.c:865-883 | the in-place trap entry reaches the specified state |
| Processor.Node.FaultEntry | emu/cpu.c:915-956 | the in-place fault entry records the address and code, describes the transaction and reaches the specified state |
| Processor.Node.ExecuteWord | emu/cpu.c:1432-1609 | the dispatch on the register arrays and the unit, one group of operations at a time, reaches the specified machine and sends control where it should |
| Processor.Node.Instruction | emu/cpu.c:1414-1631 | fetch through the unit, abort, execute, abort and sequencing in place reach the specified outcome |
| Processor.Node.SoftGate | emu/cpu.c:1319-1337 | fires exactly when the specification says, with that state |
| Processor.Node.HardGate | emu/cpu.c:1338-1363 | fires exactly when the specification says, with that state |
| Processor.Node.Step | emu/cpu.c:983-1631 | soft gate, hard gate, instruction, in that order |
| Processor.Node.Turn | emu/sysmode.c:339-453 | a pending fault is delivered before anything runs; traps go to the kernel or stop the machine |
| Processor.Node.Run | emu/sysmode.c:339-453 | the in-place loop, for any number of turns, reaches the state the specified loop reaches, and stops when it does; from reset its ticks stay within the compare writes plus one, its pc stays aligned, and in steady runs it ends as the machine without a cache |
| Processor.Node.Kcall | emu/cpu.c:199-236 | a call from outside restores the processor exactly, takes no interrupt inside, and returns the function's result or all ones |
| Telnet.RoundTrip | emu/console.c:205-233 | data with 0xFF doubled and any negotiation, commands and subnegotiations between decodes to exactly the data |
| Telnet.DecodeInvertsEncode | emu/console.c:205-233 | the same in front of any further wire bytes |
| Telnet.DecodeItem | emu/console.c:205-233 | each wire item contributes its data byte or nothing and consumes itself exactly |
| Telnet.SkipEscaped | emu/console.c:218-227 | a subnegotiation ends at its own IAC SE, escaped 0xFF in its payload included |
| ConsoleLaws.WireExample | emu/console.c:176-215 | on bytes: a negotiation, a subnegotiation with an escaped 255 in it and an escaped 255 of the user's own |
| Telnet.Wire.Recv | emu/console.c:189-202 | a pushed-back byte is read before the wire, and the end is sticky |
| Telnet.Wire.InByte | emu/console.c:205-233 | the decoding loop returns the next data byte and leaves the specified rest |
| Lines.ZeroMeansEof | emu/console.c:258-285 | a line is empty exactly when the end-of-file key or the disconnect closes an empty buffer |
| Lines.CookAt | emu/console.c:258-285 | once the keys before the first terminator are known, line and rest are |
| ConsoleLaws.PlainKeys | emu/console.c:258-285 | keys that neither edit nor end are the line, as far as the buffer goes |
| ConsoleLaws.EditingKeys | emu/console.c:258-285 | backspace and delete undo the last byte taken and do nothing on an empty line; NUL does nothing, nor does a byte in a full buffer |
| ConsoleLaws.LineLimit | emu/console.c:258-292 | a line keeps its newline up to 4099 keys; a longer one is its first 4100 bytes, without |
| ConsoleLaws.LineEndings | emu/console.c:258-285 | CR LF, CR NUL, CR and LF end a line alike and take no byte of the next; the end-of-file key leaves no newline |
| Lines.ReadsKeep | emu/console.c:292-305 | for reads of any sizes, what has been returned and what is still owed is always the whole edited text, in order |
| Lines.ReadProgress | emu/console.c:292-305 | a positive read returns nothing exactly at an end-of-file mark, and otherwise advances |
| Lines.ReadsDrain | emu/console.c:292-305 | enough positive reads return exactly the edited text |
| Lines.TypedLines | emu/console.c:263-271 | CR, LF, CR LF and CR NUL each end one line, which reads as its edited keys and a newline |
| ConsoleLaws.KeyShows | emu/console.c:270-283 | while there is room, printing bytes and tab echo as themselves, other control bytes not at all, an erase of something as backspace, blank, backspace |
| ConsoleLaws.LineShows | emu/console.c:258-285 | a line's echo ends in CR LF whichever way it was ended, and in nothing at an end-of-file key or where the wire ends |
| Lines.EchoShows | emu/console.c:273-283 | when no byte taken into the line is undrawable the echo leaves exactly the buffer behind the prompt, and blanks behind that |
| Lines.EchoInStepIff | emu/console.c:273-283 | for input without tabs, and with no more undrawn bytes taken than the prompt is long, the screen shows the buffer if and only if no undrawn byte was taken; below the cap, if and only if every key is printable, an erase or NUL |
| Lines.ControlKeyExample | emu/console.c:280-283 | control-A and a letter: two bytes in the line, one cell on the screen |
| Terminal.PushbackLosslessIff | emu/console.c:267 | pushing a byte back is lossless for every continuation if and only if it is not 0xFF |
| Terminal.LostByteExample | emu/console.c:267 | a CR and an escaped 0xFF decode to both bytes, the pushed-back 0xFF alone to none |
| Terminal.SafeAfter | emu/console.c:258-285 | input with no escaped 0xFF behind a CR stays so after a line, and in step |
| Terminal.OnlcrInvertible | emu/console.c:307-317 | newline translation loses nothing: reading CR LF as newline gives the output back |
| Terminal.Console.TakePair | emu/console.c:264-268 | the byte behind a CR is absorbed if LF or NUL, pushed back otherwise |
| Terminal.Console.CookLine | emu/console.c:258-285 | line and echo are those of the decoded input; the wire is left in step but for a pushed-back 0xFF |
| Terminal.Console.SockRead | emu/console.c:292-305 | a read drains leftovers first and a fresh line otherwise, as specified for any size |
| Terminal.Console.ReadAll | emu/console.c:292-305 | in place, reads of any sizes from safe input return the edited text in order, and what they have not returned is still owed |
| Terminal.Console.SockWrite | emu/console.c:307-317 | chunked output is the newline translation of its input and the chunk buffer never overflows |
| InputRing.PushedKeeps | emu/console.c:84-88 | a push keeps the longest prefix that fits: bytes are dropped only when the ring is full |
| InputRing.Lossless | emu/console.c:84-101 | in any run of pushes and takes that never meets a full ring, every byte comes out once and in order |
| InputRing.WrapSlot | emu/console.c:77-79 | the capacity divides 2^32, so a wrapping counter stays on its slot |
| InputRing.Ring.Push | emu/console.c:84-88 | the in-place push is the bounded queue's |
| InputRing.Ring.Getc | emu/console.c:94-101 | the in-place take is the queue's; empty, it reports the end or waits |
| InputRing.Ring.Play | emu/console.c:84-101 | in place, any run of pushes and takes is the queue's; none that met a full ring, and every byte comes out once and in order |
| Syscalls.PrefaultExact | emu/proc.c:80-101 | the buffer check finds every page resident and changes only the cache, or leaves a fault for a page of the buffer, the pc at the call and nothing else |
| Syscalls.TouchRange | emu/proc.c:84-97 | pages touched stay resident: fewer than 4097 in a row share no cache slot |
| Syscalls.PointerBitKept | emu/mmu.c:359-361 | a stored byte switches translation on or off if and only if it is the one that holds the active area pointer's valid bit and has the other bit |
| Syscalls.PutResident | emu/proc.c:41-57 | into a resident buffer every byte is stored where its address is mapped, as long as none before the last switches translation on or off |
| Syscalls.PointerSwitchExample | emu/proc.c:47-52 | a buffer page mapped onto the unit's registers: its first byte switches translation off and the second lands elsewhere |
| Syscalls.DeliversAllIff | emu/proc.c:41-57 | for a resident buffer whose bytes have places of their own, every string that fills it is delivered if and only if no byte before the last lies on the active area pointer's valid bit |
| Syscalls.LandedReads | emu/proc.c:47-52 | each byte stored through unaliased pages reads back at its own address |
| Syscalls.LandedFrame | emu/proc.c:47-52 | no other byte of memory changes |
| Syscalls.FaultTakesNothing | emu/console.c:721-753 | an attempt that faults takes no input, sends nothing, writes nothing and leaves the pc at the call |
| Syscalls.ReadDelivers | emu/console.c:736-758 | a read that completes stores every byte it took from the console, as long as none before the last switches translation on or off |
| ConsoleLaws.ReadAccounts | emu/console.c:736-758 | a completed read takes the next of what is owed, no more than asked for or 4096 bytes, and something if there are leftovers; every input byte is echoed once |
| ConsoleLaws.WriteTakesNothing | emu/console.c:721-735 | a write takes no input, and shows nothing to a client that has gone |
| ConsoleLaws.PutStops | emu/proc.c:41-57 | nothing is stored at an address the tables do not map, or map to physical 0 |
| Syscalls.WriteSends | emu/console.c:721-735 | a write that completes shows a client that is there the first 2^20 bytes of the buffer, newlines read back; as many as the call reports if and only if no more were asked for |
| Syscalls.LongWriteExample | emu/console.c:724-733 | a write of 2^20 + 1 bytes reports that many and shows one less |
| Syscalls.RetryOnce | emu/proc.c:76-79 | any number of retries, whatever the kernel does to the machine in between, has the effect of the last attempt alone with the first one's console |
| Syscalls.PeekHarmless | emu/proc.c:15-33 | peeking at a process's string leaves the machine as it was but for the cache, and yields no NUL |
| ConsoleLaws.PeekReads | emu/proc.c:15-33 | a string peeked at is the bytes the tables lead to, up to a zero, an address they do not map or map to physical 0, or the limit |
| Syscalls.Services.Prefault | emu/proc.c:80-101 | the page loop computes the specified check |
| Syscalls.Services.UwriteMem | emu/proc.c:41-57 | the byte loop stores up to the first missing byte and restores the fault record |
| Syscalls.Services.UreadStr | emu/proc.c:15-33 | the byte loop reads up to NUL, a missing byte or the limit and restores the fault record |
| Syscalls.Services.ReadCall | emu/console.c:736-758 | the in-place call is the specified attempt |
| Syscalls.Services.WriteCall | emu/console.c:721-735 | the in-place call, sending in chunks of 4096, is the specified attempt |
| Descriptors.RunMatches | emu/console.c:888-902 | over every run of switches and flag changes the live copy and the slots are a plain map from process to set |
| Descriptors.Isolation | emu/console.c:888-902 | a process that runs again finds exactly the set it left, whatever the others did |
| Descriptors.ChildInherits | emu/console.c:894-900 | a process first seen starts from its parent's current set |
| Descriptors.ReturnsOwnSetIff | emu/console.c:888-902 | a saved process gets its own set back if and only if it was not blank, or its parent has none filled in and the one live is the same |
| ConsoleLaws.FilledReturns | emu/console.c:893-900 | a set with any of the first three console descriptors or the kernel's first in it is given back; one with none of them is taken for new |
| ConsoleLaws.TableHolds | emu/console.c:865-893 | there are 24 slots: a process that gets none runs on the live set, and no slot is lost |
| ConsoleLaws.ParentClaimed | emu/console.c:893-900 | a process and its parent seen for the first time both get slots while there are any |
| Descriptors.BlankSetExample | emu/console.c:895-900 | from boot, a process that closes everything and is switched out comes back with the set of the one that ran between |
| Descriptors.LeavingSaves | emu/console.c:891 | the set of the process left is saved |
| Descriptors.HeldWrite | emu/console.c:865-879 | writing a slot changes one process's entry and keeps one slot per process |
| Descriptors.HeldSize | emu/console.c:865-872 | the table is full exactly when it holds 24 processes |
| Descriptors.FdTable.Find | emu/console.c:865-872 | the two search loops find the slot, claim a blank one, or report a full table |
| Descriptors.FdTable.SwitchTo | emu/console.c:888-902 | the in-place switch is the specified one |
| Ffs.PlacementExact | emu/ffs.c:71-77 | the 32-bit address of every inode is its place modulo 2^32, and is its place exactly when that fits |
| Ffs.FarInodeExample | emu/ffs.c:71-77 | in a well-formed layout of 64 MB groups, inode 4096 lies 4 GB in and is read from inode 0's place |
| Ffs.DinodeInGroup | emu/ffs.c:71-77 | every inode lies inside its own cylinder group |
| Ffs.InodesDisjoint | emu/ffs.c:71-77 | two inodes never share a byte, within a group or across groups |
| Ffs.SplitInRange | emu/ffs.c:87-99 | a block number is within reach if and only if its place is in range, and the place gives the number back |
| Ffs.BlockInReach | emu/ffs.c:87-99 | every place in range belongs to one block number: the split is a bijection |
| Ffs.BmapIsPlace | emu/ffs.c:87-99 | the 32-bit block map reads the address kept at the block's place as far as the square of the addresses to a block goes in 32 bits, and a hole beyond; that is all of them if and only if a block holds fewer than 65536 |
| Ffs.BlockCount | emu/ffs.c:113 | the block count covers the size exactly, or is 0 when rounding up wraps |
| Ffs.HugeFileExample | emu/ffs.c:113 | a size one short of 4 GB rounds up to no blocks |
| Ffs.ReadBlock | emu/ffs.c:114-119 | one turn of the loop fills exactly that block's bytes |
| Ffs.ReadIno | emu/ffs.c:102-123 | every byte of the buffer is the image byte of its block at its offset, or zero in a hole or past the image; when the size rounds past 32 bits every byte is what the allocator left |
| FfsLayout.InodeRoundTrip | emu/ffs.c:102-110 | an inode written as 128 big-endian bytes is read back: mode, size, twelve direct and three indirect addresses |
| FfsLayout.TableReads | emu/ffs.c:80-84 | entry i of a block of big-endian addresses is address i |
| FfsLayout.AddressFound | emu/ffs.c:87-99 | laid out directly, in one block and in blocks of blocks, the address of every file block is the one the reader finds |
| FfsLayout.FileReadsBack | emu/ffs.c:102-123 | every byte of a file laid out on the image is read back, holes as zeros |
| FfsLayout.FileLoads | emu/ffs.c:102-123 | an inode and a file written are what loading the inode gives |
| FfsLayout.PastTheEnd | emu/ffs.c:68-123 | past the end of the image there are only zeros and holes |
| FfsLayout.DirectoryHeld | emu/ffs.c:126-155 | a directory laid out with its entries is one the path walk follows |
| FfsLayout.DirectoryBits | emu/ffs.c:139 | a directory is an inode whose mode masked with 0xF000 is 0x4000 |
| Namei.ComponentsOfPath | emu/ffs.c:128-135 | names between any runs of slashes come back as they were |
| Namei.SlashSeparates | emu/ffs.c:128-135 | a path of two names, byte 47 in front of each, is those two names |
| Namei.LongNameSplits | emu/ffs.c:134 | a name is cut off after 255 bytes and what is left is a name of its own |
| Namei.ScanFinds | emu/ffs.c:140-148 | looking a name up in a directory's bytes finds its first live entry |
| Namei.FirstMatchIs | emu/ffs.c:140-148 | none is found exactly when no live entry has the name, and otherwise it is the first that has |
| Namei.ScanStops | emu/ffs.c:141-145 | an entry of no length ends the search |
| Namei.WalkFollows | emu/ffs.c:126-155 | a path through directories arrives where their entries lead |
| Namei.WalkStops | emu/ffs.c:139-150 | a path that meets something that is no directory, or a missing name, leads nowhere |
| Namei.Lookup | emu/ffs.c:126-155 | the path loop computes the walk over the path's components, for every image and path |
| DiskLabel.ChecksumCloses | emu/devices.c:276-278 | storing the fold of the first 255 halfwords makes all 256 fold to zero |
| DiskLabel.FoldOfOne | emu/devices.c:276-277 | the fold of halfwords all zero but one is that one |
| DiskLabel.CylindersOf | emu/devices.c:237-246 | the cylinders are the file's whole ones, at least one and at most 65535 |
| DiskLabel.LabelReads | emu/devices.c:262-275 | read as big-endian numbers at their offsets, a label has 3600 rpm, the file's cylinders twice, 16 heads of 63 sectors, and two partitions from cylinder 0 over all the described blocks |
| DiskLabel.LabelTitle | emu/devices.c:260-261 | the title's words are there byte by byte, with the cylinders in decimal between them and a zero behind |
| DiskLabel.DecimalReads | emu/devices.c:260-261 | the digits written are decimal, without a leading zero, and read as the number |
| DiskLabel.DescribesIff | emu/devices.c:249-256 | a label is left alone exactly if it has the magic number and the three numbers of the file's shape |
| DiskLabel.BlocksFitIff | emu/devices.c:237-247 | the described blocks fit the file if and only if it holds a cylinder |
| DiskLabel.SmallFileExample | emu/devices.c:237-247 | a file of one block is described as 1008 |
| DiskLabel.BlocksCover | emu/devices.c:237-247 | less than a cylinder of a describable file is left over |
| DiskLabel.SecondCallIdle | emu/devices.c:249-256 | a second call changes nothing, even when the first one grew the file |
| DiskLabel.Build | emu/devices.c:259-278 | the label built has every field of the geometry and a zero fold |
| DiskLabel.Disk.EnsureLabel | emu/devices.c:212-283 | a file whose label describes it, and an empty one, is untouched; any other gets a valid label and keeps every byte from 512 on |

## Left out

- Floating point: operation 0x21 is a parameter of the machine (`Cpu.Machine`), since it rests on host doubles and rounding.
- Kernel-address intercepts in `step` and the process and memory experiments: they depend on a kernel binary that is not in the repository.
- Device registers other than the translation unit, the clock compare and the interrupt registers: timer and unit identity reads, CMRAM, SCSI and SHA answers. A load reads memory.
- `Refinement.StepRefines`: excludes floating point, `rte`, `fldcr`/`fstcr`/`fxcr`, `ff0`/`ff1`, `tbnd`, pair register 31, the quotient of the least integer by -1, wrapping addresses, the folded window and the mailbox address; the two programs differ or are undefined there.
- The Python processor object is modelled by functions on its state, not as a class; its sparse memory is a class. What is lost is update in place and aliasing of the register list.
- The values of the arithmetic, logical and bit-field operations are functions (`Cpu.Arith`, `Cpu.Field`), as they are expressions in the source; `Processor.Node` stores them in its register array.
- `Processor.Node` hands the mode and pc to the translation unit before each use, where the source reads one global.
- Page buffers are values in a map rather than pointers (`Memory.PagedMemory`); no code keeps a pointer into a page across calls.
- `Memory.PagedMemory` methods: watchpoint counting on byte writes is not modelled.
- `BootTables.Loader.BuildTables`: asks for page-aligned offsets, a zero table bias, a page pool that stays below device space and, when the data segment is placed apart, a split between 0xC0000000 and 0xE0000000.
- Counters and messages that nothing reads back (translation fall-back counts, probe counts, traces), and the timer's own register with the scale it reads by.
- The instruction count is unbounded rather than 64-bit.
- The switch that delivers traps to the kernel is taken as on.
- `Processor.Node.Turn`: system calls the driver answers itself are not turns of it; in clock runs they appear as any change of registers and memory (`ClockRuns.Serviced`), and on their own in `Syscalls`.
- `Processor.Node.Run`: the same.
- `Processor.Node.DevWrite`: the CMRAM select and data registers are not modelled.
- `Processor.Node.Memop`: the device answers between translation and transfer (SCSI and SHA) are not modelled.
- `Lines.EchoInStepIff`: tabs, which a terminal expands its own way, and input with more undrawn bytes taken than the prompt is long are outside the statement.
- `Syscalls.PrefaultExact`: buffers that wrap or reach kernel space are computed by `Syscalls.UbufFault` but not covered by the claim.
- `Descriptors.Isolation`: asks what `Descriptors.RunMatches` asks.
- `Exceptions.PreciseRestart`: says nothing of what the kernel's handler does to memory, which is its purpose; what it owes the program at its rte is `Exceptions.Restores`.
- The browser build of the console: the wait for the byte behind a CR is the native one, which always waits.
- `Terminal.Console.SockWrite`: a send that fails part-way is not modelled; a client that has gone receives nothing.
- Raw terminal mode, terminal ioctls and the count of waiting input: the count includes cooked bytes that raw reads do not return, so it is not an invariant.
- The stdio console, sockets, terminal modes of the host and the telnet greeting: the wire is a byte sequence.
- `InputRing.Ring.Getc`: one attempt; the sleep between attempts is the caller's loop.
- `Syscalls.ReadDelivers`: residency only, not write protection, as in the source; bytes before the last that switch translation off or on are outside the claim.
- `Syscalls.FaultTakesNothing`: buffers that wrap or reach kernel space are computed by `Syscalls.UbufFault` but not covered by the claim.
- `Descriptors.RunMatches`: asks that all processes and parents named fit the 24 slots and that nobody leaves with a blank set; with a full table the source keeps the running set for every process.
- Raw disk and host-file system calls, and the driver's marking of descriptors after `open`, `dup` and `pipe`: they appear as `Descriptors.Change`.
- Triple-indirect blocks: the source answers 0 for them, as `Ffs.Split` does.
- `Namei.Scan`: a name running past the end of a directory does not match; the source compares bytes past its buffer there. Directory sizes are assumed not to wrap when advanced by a record.
- Superblock parsing and caching, failed host reads and allocations: the geometry is a parameter, and so is what fresh memory holds.
- `DiskLabel.Disk.EnsureLabel`: a label already there is trusted by its magic and geometry, as in the source; its checksum is not examined. Host file size limits and failed writes are not modelled.
- `uput8`, `kwalk` and other debugging aids, tracing, profiling, argument parsing, web front end and analysis scripts.
- `TranslationLaws.TranslationByManual`: asks for a page-aligned scratch base, which is 0 at first and aligned when latched.
- `TranslationLaws.ProtectedStoreFaults`: speaks of pages the cache holds as their descriptors have them or not at all; stale entries are the subject of `TlbTransparency` and `CacheRuns`.
- `TranslationLaws.OtherAccessReaches`: the same.
- `AccessLaws.MailboxWord`: the mailbox is taken to lie outside the pages of the translation unit's registers and off the interrupt source register.
- `FfsLayout.FileReadsBack`: images of less than 4 GB, which is what the reader's 32-bit addresses reach; beyond, `Ffs.PlacementExact`.
- `FfsLayout.FileLoads`: the same, for sizes that do not wrap when rounded up to a block; those that do are `Ffs.HugeFileExample`.
- `ConsoleLaws.PeekReads`: user space, from a cache that agrees with the tables.
- `ConsoleLaws.PutStops`: the same.
- `DiskLabel.CylindersOf`: files of less than 2^41 bytes, whose block count fits in 32 bits.
