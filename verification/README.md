# A verified model of the MIPS III core

The repository's CPU core interprets MIPS III code in two ways: a plain loop that fetches and executes one
instruction at a time, and a cached loop that scans basic blocks once and replays them. Around both loops stand a
block cache with deferred invalidation, a software TLB, and coprocessor 0 with its exceptions, interrupts and the
Count/Compare timer. This project models those parts in Dafny and proves what they are for.

The configuration is the one of the console's main CPU: 64-bit, big-endian, coprocessor 0 with exceptions, the real
TLB, no load delay. The load delay of the MIPS I configuration has a model of its own. Words are bounded integers, so
every wrap-around, truncation and sign extension is written out. PANIC is a stopped status: most theorems say which
panics cannot be reached.

## How it is laid out

| file | contents |
|---|---|
| `Words.dfy`, `Bits.dfy`, `Memory.dfy`, `Arith.dfy` | words and bit operations, big-endian byte memory, HI/LO arithmetic |
| `Decoder.dfy`, `Encoding.dfy` | the decoder, and the instruction formats as numbers with the decoder's law |
| `Tlb.dfy`, `TlbMeaning.dfy` | the TLB, and what an entry maps in terms of page numbers, frames and offsets |
| `Cop0.dfy`, `Timer.dfy` | coprocessor 0 and the timer laws |
| `Handlers.dfy`, `AluMeaning.dfy`, `UnalignedPairs.dfy` | instruction handlers, exact arithmetic, unaligned pairs |
| `InstructionMeaning.dfy`, `MemoryMeaning.dfy` | what the encoded computing instructions, loads and stores do |
| `Machine.dfy` | the CPU as a state and functions: exceptions, polls, branches, the plain step |
| `ExceptionMeaning.dfy`, `StepMeaning.dfy`, `Cop0Meaning.dfy` | what an exception records and a poll serves; what one step does for branches, jumps, traps and moves, by the fields of the word |
| `Blocks.dfy`, `Cache.dfy`, `CacheRuns.dfy` | block formation, the block cache and its operation sequences |
| `CodeCache.dfy`, `Invalidation.dfy`, `StaleBlocks.dfy` | caches of scanned blocks, when invalidation is exact, and programs for which it is not |
| `Simulation.dfy`, `Parting.dfy`, `Cycles.dfy`, `Refinement.dfy`, `Lockstep.dfy` | what an instruction cannot see, where the two interpreters part, the cost of instructions, the simulation of one entry, and of whole runs |
| `CacheEffects.dfy`, `CacheInCpu.dfy` | what executed instructions do to the block cache |
| `Interpreter.dfy` | the CPU object: its methods, `Run` and `RunCached` |
| `Masking.dfy`, `Precision.dfy`, `Interrupts.dfy`, `InHandlers.dfy` | what interrupts disturb, precise delay slots, interrupt transparency, handlers |
| `TimerRuns.dfy` | the timer inside the running CPU |
| `LoadDelay.dfy` | the delayed load unit |
| `Examples.dfy` | small programs that meet the hypotheses of the main theorems, or show why they are needed |

## Main results

1. **The cached loop is the plain loop.** `Interpreter.Mips.RunCached` runs an arbitrary program whose code and TLB
   mapping are fixed over the run. Its final state is where its own run of fetched entries leads: a schedule of visits
   to scanned blocks, each charged at its end, and polls. A plain CPU that starts alike and takes the same steps and
   polls agrees with it at every block boundary, and entry by entry inside every block (registers, HI/LO, memory,
   coprocessor 0, pending branch and clocks, addresses modulo 2^32), if and only if every executed instruction meets a
   condition that can be checked before it executes (`Lockstep.RunPartsExactly`, `Parting.ExecMeetsExactly`): reads and
   writes of Count need equal clocks (but for r0 and one coincidence of bases), `dmfc0` of EPC equal upper halves, and
   a spinning `J` both pcs below 2^32 or neither, because only the cached loop masks pc and charges late. Otherwise
   exactly one instruction is the first to part the two, and after it they differ (`Lockstep.DepartureIsFirst`,
   `Lockstep.DepartureDiffers`, `Examples.CountReadParts`). A scan can miss an address that the plain loop never
   reaches (`Examples.PrefetchMiss`); the plain CPU panics there too if and only if the miss is at pc itself.
2. **The block cache is a plain map** for every operation sequence (`CacheRuns.Replay`). Invalidation erases exactly
   the marked blocks, for every hash-map order, if and only if the marked set is closed under containment
   (`Cache.ClosedErasesExactly`, `Cache.UnclosedErasesWrongly`), and is exact for all ranges if and only if no block
   outlives another in which it starts (`Invalidation.ExactIffNoneOutlives`). For scanned blocks whose entries are
   consecutive in physical memory this holds if and only if every block that starts inside another starts no later
   than its terminating branch, or at a trap in its delay slot, and the other was not ended by the length cap
   (`Invalidation.ScannedCacheIsExact`). Both failures occur: a start in a delay slot and two capped blocks
   (`StaleBlocks.SlotStartGoesStale`, `StaleBlocks.CappedBlocksGoStale`). In the CPU, every method fixes the cache it
   leaves: CACHE with bit 16 clear marks exactly the blocks that hold a byte of its 32-byte line, no other instruction
   changes the cache (`CacheEffects.CacheMarks`), and where no block outlives another, the next lookup does not return
   a block whose line was invalidated since (`CacheInCpu.RunThenFind`).
3. **Interrupts are precise and transparent.** A pending branch is precise when it is the instruction at pc - 4 and
   replaying it rebuilds the state. A run keeps this throughout if and only if each executed instruction that sets the
   flag replays (`Interrupts.FlagIsPreciseExactly`): outside a delay slot, it would go to the same place on the link it
   wrote; inside one, the word before the outer target is a branch to its own target that links nothing new
   (`Precision.StepPreciseExactly`). A poll panics ("NON BRANCH ON BD") if and only if it takes an interrupt while a
   branch is pending and the word at pc - 4 is not one with a delay slot (`Interrupts.PollPanicsExactly`); after a
   branch in a delay slot that is the word before the outer target (`Interrupts.SlotBranchPanicsExactly`,
   `Examples.BranchInSlotPanics`). If a program's instructions replay, and it reads neither Count nor Cause, nor EPC (by
   ERET included) after an interrupt until it is set again, then a run with any number of interrupts and their executed
   handlers is where it would be without them, up to llbit, Cause, EPC, the interrupt and halt lines, the clocks and
   the timer's bookkeeping (`InHandlers.MachineRunsAreTransparent`). Interrupts do not nest
   (`Interrupts.AtMostOneInterrupt`, `InHandlers.HandlerKeepsEpc`). The MIPS R4000 Microprocessor User's Manual,
   chapter 5, sets BD for any exception in a delay slot; the code clears the flag before it executes the instruction,
   so an exception raised by that instruction reports BD = 0 and its own address. The model follows the code
   (`InHandlers.SynchronousExceptionsLoseTheBranch`).
4. **The timer** reports each instant at which Count equals Compare in exactly one check, for gaps of at most one
   revolution (`Timer.IntervalsPartition`, `Timer.ReportsAreExact`). Every run of the CPU is a run of this timer
   (`TimerRuns.RunIsTimerRun`): its polls are the checks (`TimerRuns.PollsReportExactly`), and no run records an instant
   in its future (`TimerRuns.CpuIsCausal`).
5. **The TLB** maps the pages its entries describe: with pages of 2^k * 4 KB, the first entry whose page pair and
   address space agree and whose half is valid gives that half's frame plus the offset in the page
   (`TlbMeaning.TranslationMaps`). It round-trips through TLBWI, TLBP and TLBR. TLBP stores the miss answer in a
   six-bit index, so a miss cannot be told from a hit at entry 0 (`TlbMeaning.ProbeIndex`); the MIPS R4000
   Microprocessor User's Manual, chapter 4, has a miss bit there. The model follows the code.
6. **Time is conserved**: 256 * cycles + counter grows by cpi per instruction and 25600 per idle hit, `Run` and
   `RunCached` terminate, advance the timestamp by what they return, and overshoot by at most one
   instruction or block and its idle hits.
7. **Unaligned pairs** load and store exactly the bytes they name, for every address, and undo each other.
8. **The load delay** refines a one-slot machine and neither of its panics can be reached.
9. **Words mean what their fields say.** Decoding gives back the identifier and the fields of every encoded instruction,
   and the unknown words are exactly those outside the encoder's range (`Encoding.RoundTrip`,
   `Encoding.UnknownWords`). On encoded words or numeric fields, and without the handlers' own functions: sums,
   products and quotients are exact, logic and shifts are given bit by bit, loads and stores by address, bytes,
   extension and address error (`InstructionMeaning`, `MemoryMeaning`); branches by signed comparison, target and
   nullified slot, jumps by segment and target, exceptions by code, BD, EPC and vector, moves by what later moves read
   (`StepMeaning`, `Cop0Meaning`, `ExceptionMeaning`); a poll interrupts for exactly the unmasked raised sources
   (`ExceptionMeaning.PollServes`).

## Model

| member | source | states |
|---|---|---|
| Interpreter.Mips.RunCached | src/mips_base.cpp:269-372 | for every program and every plain CPU p0 that starts alike: the final state (before the panic, when a scan missed) is where the cached CPU's own schedule leads, every block of it a visit of a scanned block; the two stay in step throughout if and only if every executed instruction meets the condition; then they end alike, and otherwise they have a departure; a comparable program has none; the cache is where the schedule's visits lead; after a miss in step the plain CPU cannot fetch if and only if the word at pc is missing; no more than 256 instructions run between polls; it returns the growth of the timestamp, at least the request and at most one block over it; it terminates |
| Interpreter.Mips.BlockStep | src/mips_base.cpp:289-369 | one pass of the loop extends the cached CPU's schedule, and the history of its cache, by exactly one visit of a block, or the scan misses; its gain is positive and bounded by 64 instructions and one idle hit (two if a branch may sit in a delay slot) |
| Interpreter.Mips.RunBlock | src/mips_base.cpp:302-369 | the block is left after the entry at which the CPU stops, the block ends or pc is elsewhere, and the state is that of the executed entries, charged together; the cache is what those entries make of it |
| Interpreter.Mips.RunEntries | src/mips_base.cpp:305-358 | the entry loop executes exactly the words Fetch gives, uncharged, until the CPU stops, the block ends or pc is not where the next entry is; the cache changes entry by entry |
| Interpreter.Mips.RunEntry | src/mips_base.cpp:344-357 | one entry is one plain step without the fetch and the charge, with pc masked to 32 bits; it leaves the cache as its instruction does |
| Interpreter.Mips.FindBlock | src/mips_base.cpp:289-300 | after the pending clear, null exactly when no block is cached for pc and its scan misses; otherwise a scanned block stored at pc's physical address, whose first entry is the word Fetch gives at pc; "Block creation failed" is not reachable; the cache gains exactly the scanned block, and the block found is the surviving object or a new one |
| Interpreter.Mips.OnNewBlock | src/mips_base.cpp:1383-1436 | the cache gains exactly the block the scan specification gives, or the CPU panics and the cache is unchanged |
| Interpreter.Mips.PollStep | src/mips_base.cpp:272-278 | every fourth block, and no other, is preceded by a poll, which extends the schedule |
| Interpreter.Mips.StartsSynchronised | src/mips_base.cpp:168-191 | a CPU whose cache holds only code may be compared with itself, whatever its pc, so the hypothesis of RunCached is met after Reset |
| Interpreter.Mips.Run | src/mips_base.cpp:244-266 | one poll and then plain steps until the cycles are spent; it returns the growth of the timestamp, overshoots by at most one instruction and one idle hit, lets time pass when halted, and terminates for cpi >= 1; the cache is what those steps make of it |
| Interpreter.Mips.RunInst | src/mips_base.cpp:508-562 | the method refines the plain step of the specification, and leaves the cache as the fetched instruction does |
| Interpreter.Mips.ExecuteInst | src/mips_base.cpp:565-791 | the handler the opcode selects, in place, equals the specification's instruction; the whole cache is unchanged but for what CACHE marks |
| Interpreter.Mips.TriggerException | src/mips_base.cpp:945-1029 | Cause, EPC, EXL, pc and the delay-slot flag after an exception, including both panics |
| Interpreter.Mips.CheckInterrupt | src/mips_base.cpp:468-505 | an exception is taken exactly when interrupts are enabled and an unmasked source is pending |
| Interpreter.Mips.CheckCompareTimer | src/mips_base.cpp:443-460 | Cause's pending bits follow the lines, a crossed Compare latches the timer interrupt and is taken at once if enabled |
| Interpreter.Mips.InstCondBranch | src/mips_base.cpp:1747-1868 | conditional and likely branches: link, idle credit, pending target or nullified slot |
| Interpreter.Mips.InstJump | src/mips_base.cpp:1871-1924 | J, JAL, JR and JALR: target, link, idle credit, panic on an unaligned target |
| Interpreter.Mips.InstCop | src/mips_base.cpp:2235-2273 | coprocessor-unusable exceptions, coprocessor 0 commands and moves |
| Interpreter.Mips.InstCache | src/mips_base.cpp:2497-2514 | the 32-byte line of the address is invalidated unless the data cache is meant |
| Interpreter.Mips.LoadLeftBytes | src/mips_base.cpp:2022-2049 | the loop of LWL and LDL computes the specification's merge |
| Interpreter.Mips.LoadRightBytes | src/mips_base.cpp:2052-2080 | the loop of LWR and LDR computes the specification's merge |
| Interpreter.Mips.StoreLeftBytes | src/mips_base.cpp:2148-2164 | the loop of SWL and SDL leaves the specification's memory, or panics |
| Interpreter.Mips.StoreRightBytes | src/mips_base.cpp:2167-2184 | the loop of SWR and SDR leaves the specification's memory, or panics |
| Refinement.EntryRefinesStep | src/mips_base.cpp:344-357 | one entry from any state in the middle of a block matches one plain step if and only if the instruction meets the condition on clocks and upper halves |
| Refinement.BlockEnd | src/mips_base.cpp:364-368 | charging n instructions at the end of a block gives the clocks of charging each one |
| Lockstep.EntriesMaskPc | src/mips_base.cpp:351-357 | after any entry of a block a running CPU has a pc below 2^32 |
| Lockstep.BlockExactly | src/mips_base.cpp:305-358 | through a block of n entries the cached CPU stays abreast of n plain steps, entry by entry, if and only if every instruction meets the condition |
| Lockstep.RunExactly | src/mips_base.cpp:269-372 | over any schedule of blocks, polls and idle time the two agree at every boundary and inside every block if and only if every instruction meets the condition |
| Lockstep.RunPartsExactly | src/mips_base.cpp:269-372 | then they end alike; if some instruction fails the condition there is a departure: a first entry of a first block at which it fails, the two in step up to it |
| Lockstep.DepartureIsFirst | src/mips_base.cpp:269-372 | a schedule has at most one departure |
| Lockstep.ComparableMeetsAll | src/mips_base.cpp:269-372 | in a program without reads and writes of Count, dmfc0 of EPC and spinning J every instruction meets the condition |
| Lockstep.DepartureDiffers | src/mips_base.cpp:344-357 | after the departing instruction the two CPUs really differ |
| Refinement.EntryEarns | src/mips_base.cpp:1753-1759 | the idle-hit account of a block stays bounded entry by entry |
| Refinement.BonusStep | src/mips_base.cpp:1753-1759 | only the last two entries of a block can spin, and only one of them unless a branch sits in a delay slot |
| Refinement.PollIsSimilar | src/mips_base.cpp:273-277 | a poll at a block boundary keeps the two CPUs in step |
| CodeCache.FoundBlockMatches | src/mips_base.cpp:293-299 | a block found through any alias of its start is stored at pc's physical address and begins with the word Fetch gives at pc |
| CodeCache.NewBlockIsCode | src/mips_base.cpp:1424-1428 | inserting a scanned block keeps every cached block a scan from an alias of its key |
| Simulation.TriggerAgrees | src/mips_base.cpp:945-1029 | exceptions agree modulo 2^32, in and out of delay slots |
| Parting.ExecMeetsExactly | src/mips_base.cpp:565-791 | every instruction has the same effect on both CPUs if and only if it meets the condition; otherwise status, a register, coprocessor 0 or the time taken differs |
| Parting.SpinMeets | src/mips_base.cpp:1871-1883 | a spinning J earns the same credit if and only if both pcs are below 2^32 or neither is |
| Parting.CountReadsMeet | src/mips_cop0.cpp:498-505 | reads of Count at two instants agree if and only if the instants do, base repair included |
| Parting.CountWritesMeet | src/mips_cop0.cpp:487-496 | writes of Count at two instants leave the same base and flag if and only if the instants are equal or the later base happens to be the earlier instant |
| Parting.EpcMeets | src/mips_cop0.cpp:240-285 | dmfc0 of EPC agrees if and only if the EPCs are equal or the destination is r0 |
| Cycles.StepCharges | src/mips_base.cpp:552-557 | an instruction is charged cpi, and 100 cycles more exactly when it spins |
| Cycles.RunCharges | src/mips_base.cpp:508-562 | over any run time grows by cpi per instruction and 25600/256 cycles per idle hit |
| Cycles.ExecTime | src/mips_base.cpp:1753-1759 | only the spinning branch and the spinning J earn time, and only with a nop in the slot |
| Blocks.ScanBody | src/mips_base.cpp:1395-1411 | the array loop computes the body specification and never writes past the array |
| Blocks.ScanBlock | src/mips_base.cpp:1390-1422 | the body and, after a branch, its delay slot; None exactly when a fetch misses |
| Blocks.ScanShape | src/mips_base.cpp:1395-1426 | a block has 1 to 64 contiguous entries equal to Fetch at their addresses, and no branch before its final branch and slot, its final trap, or the cap |
| Blocks.ScanIs | src/mips_base.cpp:1390-1422 | the scan's answer is the one well-ended sequence of entries that the code holds from its start |
| Blocks.SuffixIsBlock | src/mips_base.cpp:1395-1422 | starting anywhere up to the terminating branch of an uncapped block, or at a trap in its slot, gives the rest of that block |
| Blocks.ScansShareEnd | src/mips_base.cpp:1390-1426 | a scan from inside a block ends with it if and only if the block is uncapped and the scan starts no later than its terminating branch or at a trap in its slot |
| CodeCache.AliasesScanAlike | src/mips_base.cpp:1390-1422 | aliases of the same physical words scan the same instructions |
| CodeCache.KsegLiesAt | src/mips_tlb_normal.cpp:24-31 | a block that stays inside kseg0 or kseg1 has consecutive physical entries |
| CodeCache.PageLiesAt | src/mips_tlb_normal.cpp:33-60 | so does a block that stays inside one 4 KB page |
| CodeCache.FlatEndsMeet | src/mips_cache.cpp:177-196 | two cached blocks of which one contains the other's start end together if and only if the start is aligned with the entries and meets the condition of ScansShareEnd |
| CacheRuns.Replay | src/mips_cache.cpp:28-198 | for every sequence of insert, get, invalidate, queue, execute and reset the cache answers like the plain map, and HasPendingWork is exact |
| CacheRuns.Perform | src/mips_cache.cpp:45-72 | each single operation answers and changes state like the plain map |
| CacheRuns.CreatedBlockIsFound | src/mips_cache.cpp:86-103 | with the real TLB a block created at a translatable pc is found by the next lookup |
| CacheRuns.CreatedBlockWithDummy | src/mips_cache.cpp:46-58 | with the identity TLB this holds exactly outside kseg0 and kseg1 |
| CacheRuns.LineMarksItsBytes | src/mips_cache.cpp:137-153 | CACHE marks a block exactly when it holds a byte of the line, translated byte by byte |
| Cache.MipsCache.GetBlock | src/mips_cache.cpp:45-72 | the live block stored under the translated address, through the slot table |
| Cache.MipsCache.InsertBlock | src/mips_cache.cpp:86-103 | the relocated block is added unless one is there, and every slot is dropped |
| Cache.MipsCache.InvalidateBlockRange | src/mips_cache.cpp:137-153 | exactly the blocks overlapping the physical range become pending |
| Cache.MipsCache.EraseContaining | src/mips_cache.cpp:177-196 | one block containing the address goes, in any map order, together with its slot |
| Cache.MipsCache.ExecuteCacheClear | src/mips_cache.cpp:162-198 | a queued clear empties everything; otherwise the pending addresses are worked through in ascending order |
| Cache.MipsCache.QueueCacheClear | src/mips_cache.cpp:156-159 | a clear is queued and the work flag set |
| Cache.MipsCache.Reset | src/mips_cache.cpp:28-37 | the cache is empty and has no pending work |
| Cache.ClosedErasesExactly | src/mips_cache.cpp:177-196 | a marked set closed under containment is erased exactly, for every iteration order |
| Cache.UnclosedErasesWrongly | src/mips_cache.cpp:177-196 | a marked set that is not closed is erased wrongly under some iteration order |
| Invalidation.ExactIffNoneOutlives | src/mips_cache.cpp:177-196 | invalidation is exact for every list of ranges and every map order if and only if no block outlives another in which it starts |
| Invalidation.InvalidationsMark | src/mips_cache.cpp:137-153 | any list of InvalidateBlockRange calls marks exactly the blocks that overlap a translated range |
| Invalidation.InvalidationIsExact | src/mips_cache.cpp:137-198 | from no pending work, InvalidateBlockRange calls and one ExecuteCacheClear leave exactly the blocks that overlap no translated range, if none outlives another |
| Invalidation.RunsHoldCode | src/mips_cache.cpp:28-198 | in every operation sequence whose inserts are OnNewBlock's, each cached block is a scan from an alias of its key |
| Invalidation.ScannedBlocksShareEnds | src/mips_cache.cpp:145-152 | overlapping scanned blocks share their ends if and only if each meets the condition on where it starts |
| Invalidation.ScannedCacheIsExact | src/mips_cache.cpp:177-196 | for aligned scanned blocks invalidation is always exact if and only if that condition holds throughout the cache |
| Invalidation.ScannedCacheInvalidates | src/mips_cache.cpp:137-198 | the same over operation sequences |
| StaleBlocks.SlotStartGoesStale | src/mips_cache.cpp:177-196 | for a concrete program, blocks scanned at a branch and at its slot: an invalidated block survives |
| StaleBlocks.CappedBlocksGoStale | src/mips_cache.cpp:177-196 | for a program of nops, two blocks ended by the length cap: an invalidated block survives |
| Interrupts.FlagIsAlwaysPrecise | src/mips_base.cpp:966-976 | in every run of steps, polls and outside events whose executed instructions replay, a pending branch is the instruction at pc - 4 and replaying it rebuilds the state; the "NON BRANCH ON BD" panic is not reachable |
| Interrupts.FlagIsPreciseExactly | src/mips_base.cpp:966-976 | the flag is precise after every prefix of a run if and only if each executed instruction of the run replays |
| Interrupts.PollPanicsExactly | src/mips_base.cpp:966-976 | a poll panics if and only if it takes an interrupt while a branch is pending and the word at pc - 4 is missing or has no delay slot |
| Interrupts.SlotBranchPanicsExactly | src/mips_base.cpp:966-976 | after a branch in a delay slot has set the flag, a poll panics if and only if it takes an interrupt and the word before the outer branch's target is missing or has no delay slot |
| Interrupts.ProgramRunReplays | src/mips_base.cpp:837-873 | every run of a program without branches in delay slots and without self-linking branches is such a run |
| Precision.PreciseExactly | src/mips_base.cpp:966-976 | a pending branch is precise if and only if the word at pc - 4 is a branch that goes to the pending target and whose link is already in place |
| Precision.StepPreciseExactly | src/mips_base.cpp:837-873 | a step leaves the flag precise if and only if its instruction sets no flag; or, outside a slot, keeps its target on its own link; or, in a slot, the word before the outer target is a branch to the same target that links nothing new |
| Precision.SlotBranchExactly | src/mips_base.cpp:837-873 | a branch in a delay slot that sets the flag runs on at the outer target, and leaves the flag precise if and only if the word before that target rebuilds its target and links |
| Precision.SelfLinkExactly | src/mips_base.cpp:1910-1924 | a branch that sets the flag outside a slot leaves it precise if and only if it goes to the same place on the link it wrote; for JALR with rd = rs, if and only if the link equals the source |
| Precision.OnlyBranchesSetFlag | src/mips_decode.cpp:591-622 | only an opcode that decodes to one with a delay slot sets the flag, and it changes nothing else |
| Precision.StepEquivalent | src/mips_base.cpp:508-562 | states equal up to what an interrupt disturbs step alike; an exception or a write makes EPC known again |
| Interrupts.EpisodeIsTransparent | src/mips_cop0.cpp:100-115 | an interrupt, a handler that ends as it began, and ERET (and the replayed branch) lead back to the interrupted state up to llbit, Cause, EPC and the clocks |
| Interrupts.InterruptsAreTransparent | src/mips_base.cpp:966-1028 | the same for whole runs with any number of interrupts, for programs whose instructions replay and that do not read what interrupts disturb |
| InHandlers.ServiceIsEpisode | src/mips_base.cpp:966-1028 | a handler run that stays in the handler and gives back registers, memory and coprocessor 0 is such an episode; that EPC survives it is proved |
| InHandlers.MachineRunsAreTransparent | src/mips_base.cpp:244-266 | transparency for machine runs: instructions, polls, outside events, and interrupts with their executed handlers |
| Interrupts.AtMostOneInterrupt | src/mips_base.cpp:994-1008 | a poll takes at most one interrupt, saves the right resume address, takes none while EXL is set, and never panics |
| Examples.InterruptInSlot | src/mips_base.cpp:966-1028 | the hypotheses hold for an interrupt between a branch and its slot: it is taken, returned from, and invisible |
| Examples.BranchInSlotPanics | src/mips_base.cpp:966-976 | for a concrete program with a branch in a slot the flag is not precise and the next poll panics |
| Examples.RunExample | src/mips_base.cpp:269-372 | a fresh CPU runs a program in the cached loop under the hypotheses of RunCached, stays in step with the plain CPU, and ends with it |
| Examples.CountReadParts | src/mips_base.cpp:344-357 | for a concrete block of two nops and a read of Count the third instruction is the departure |
| Examples.PrefetchMiss | src/mips_base.cpp:1395-1398 | for a concrete program the scan misses an address that the plain loop never fetches |
| Masking.ExecAlike | src/mips_base.cpp:565-791 | llbit, Cause, EPC, clocks and lines influence no instruction that does not observe them |
| InHandlers.StepKeepsEpc | src/mips_base.cpp:994-1008 | while EXL is set no instruction or exception overwrites EPC, unless it writes EPC |
| InHandlers.HandlerKeepsEpc | src/mips_base.cpp:966-1028 | a whole handler run, polls included, keeps EPC |
| InHandlers.SynchronousExceptionsLoseTheBranch | src/mips_base.cpp:510-516 | an exception raised by an instruction reports that instruction with BD clear, so it is resumable exactly outside delay slots |
| Timer.CountingLoop | src/mips_cop0.cpp:466-475 | the disabled step-by-step loop reports whether Compare lies in the interval |
| Timer.FastMeetsSlow | src/mips_cop0.cpp:476-482 | the unsigned comparison gives the same answer for 1 <= delta <= 2^32 |
| Timer.BeyondOneRevolution | src/mips_cop0.cpp:476-482 | beyond one revolution the two differ, and exactly when |
| Timer.CheckIsExact | src/mips_cop0.cpp:447-485 | a check reports exactly when Count met Compare since the last one |
| Timer.ReportsAreExact | src/mips_cop0.cpp:447-485 | every check of a run reports exactly the instants of its own interval |
| Timer.IntervalsPartition | src/mips_cop0.cpp:447-485 | every instant lies in exactly one check interval |
| Timer.MatchIsReportedOnce | src/mips_cop0.cpp:447-485 | an instant of equality is reported by exactly one check |
| Timer.RunsAreCausal | src/mips_cop0.cpp:487-505 | "Time went backwards" is not reachable and the Count base never passes the timestamp |
| Timer.WriteRestarts | src/mips_cop0.cpp:447-496 | after a write of Compare or Count the next check reports nothing, and the check after it exactly the matches in between |
| TimerRuns.RunIsTimerRun | src/mips_base.cpp:443-460 | every run of instructions, polls and outside events moves the timer and the clock exactly as its list of timer operations does, and its polls answer what the checks of that list answer, at their instants |
| TimerRuns.PollChecks | src/mips_base.cpp:443-460 | a poll that reaches the timer is one check at its own instant, and latches the timer's line if and only if the check reports |
| TimerRuns.ExecTimer | src/mips_cop0.cpp:447-505 | an instruction changes the timer exactly as its move of Count or Compare does, and otherwise not at all |
| TimerRuns.CpuIsCausal | src/mips_cop0.cpp:487-505 | from a causal start no run of the CPU goes back in time, and no read of Count needs its repair |
| TimerRuns.PollsReportExactly | src/mips_base.cpp:443-460 | while Count and Compare are not written, the i-th poll of a run reports if and only if Count met Compare since the poll before |
| Cop0.MipsCop0.CheckCompareInterrupt | src/mips_cop0.cpp:447-485 | the method equals the timer check of the specification |
| Cop0.MipsCop0.SetCount | src/mips_cop0.cpp:487-496 | the Count base after a write |
| Cop0.MipsCop0.GetCount | src/mips_cop0.cpp:498-505 | the value read, and the base repaired when it lies ahead |
| Cop0.MipsCop0.ReturnFromException | src/mips_cop0.cpp:100-115 | ERET leaves the error level first, then the exception level |
| Tlb.TranslationIsPageGranular | src/mips_tlb_normal.cpp:16-60 | addresses of one 4 KB page get the same outcome and frame, and keep their low twelve bits |
| Tlb.CacheLineIsContiguous | src/mips_tlb_normal.cpp:16-60 | a 32-byte line is one physical interval |
| Tlb.SearchFindsFirst | src/mips_tlb_normal.cpp:33-60 | translation answers with the least matching entry and misses only when none matches |
| Tlb.ProbeFindsFirst | src/mips_tlb_normal.cpp:125-136 | a probe answers with the least matching index |
| Tlb.FastPathAgrees | src/mips_tlb_normal.cpp:24-31 | the block cache's kseg shortcut equals the real translation |
| Tlb.FastPathWithDummy | src/mips_cache.cpp:46-58 | with the identity TLB it does so exactly outside kseg0 and kseg1 |
| Tlb.WriteIndexedKeepsValid | src/mips_tlb_normal.cpp:66-78 | TLBWI keeps the G bits equal and page masks well formed |
| Tlb.WriteThenProbe | src/mips_cop0.cpp:71-90 | after TLBWI at i a probe answers with an index of at most i |
| Tlb.WriteThenRead | src/mips_cop0.cpp:61-80 | after TLBWI, TLBR restores EntryHi and PageMask, and EntryLo up to the ANDed G bit |
| Tlb.MipsTlb.TranslateAddress | src/mips_tlb_normal.cpp:16-60 | the loop equals the translation function |
| Tlb.MipsTlb.ProbeTlbEntry | src/mips_tlb_normal.cpp:125-136 | the loop equals the probe function |
| Tlb.MipsTlb.SetTlbEntry | src/mips_tlb_normal.cpp:66-78 | the entry is stored with ANDed G bits |
| Tlb.MipsTlb.InformTlbException | src/mips_tlb_normal.cpp:120-123 | EntryHi takes the faulting page and keeps its ASID |
| UnalignedPairs.LoadPair | src/mips_base.cpp:2022-2080 | a left and a right load give the value of the bytes a to a+w-1, whatever the register held |
| UnalignedPairs.LoadPairInstructions | src/mips_base.cpp:2802-2852 | LWL/LWR and LDL/LDR as instructions load the (sign-extended) value |
| UnalignedPairs.StorePair | src/mips_base.cpp:2148-2184 | a left and a right store change exactly the bytes a to a+w-1 |
| UnalignedPairs.StorePairInstructions | src/mips_base.cpp:2904-2940 | SWL/SWR and SDL/SDR as instructions do so |
| UnalignedPairs.StoreThenLoad | src/mips_base.cpp:2022-2184 | a load pair undoes a store pair |
| UnalignedPairs.PairIsBusLoad | src/mips_base.cpp:1157-1180 | within a page the pair loads what one misaligned bus load would |
| AluMeaning.ExactArithmetic | src/mips_base.cpp:1449-1490 | adds and subtracts write the exact signed result or trap; the unsigned forms wrap |
| AluMeaning.ExactProduct | src/mips_base.cpp:1555-1576 | HI:LO is the exact product at the instruction's width and signedness |
| AluMeaning.ExactQuotient | src/mips_base.cpp:1513-1552 | LO and HI are the truncated quotient and remainder; a zero divisor leaves the dividend and 1 or -1; the overflowing pair keeps lo * rt + hi = rs modulo the word size |
| AluMeaning.LoadAfterStore | src/mips_base.cpp:1303-1348 | a load at the address of a store gives the low bytes stored, and no other byte changes |
| Arith.AddOverflowIsExact32 | src/mips_base.cpp:37-39 | the xor test holds exactly when the signed sum leaves 32 bits |
| Arith.AddOverflowIsExact64 | src/mips_base.cpp:41-43 | the same for 64 bits |
| Arith.SubOverflowIsExact32 | src/mips_base.cpp:45-47 | the xor test holds exactly when the signed difference leaves 32 bits |
| Arith.SubOverflowIsExact64 | src/mips_base.cpp:49-51 | the same for 64 bits |
| Arith.DmultIsExact | src/mips_base.cpp:2583-2592 | HI:LO is the exact 128-bit signed product |
| Arith.DmultuIsExact | src/mips_base.cpp:2595-2602 | HI:LO is the exact 128-bit unsigned product |
| Arith.DdivIsExact | src/mips_base.cpp:2605-2626 | quotient and remainder truncate toward zero |
| LoadDelay.DelayedLoads.RunInst | src/mips_base.cpp:546-550 | an instruction and its ExecuteDelayedLoad refine the one-slot machine; an active load has been counted exactly once at every boundary; no panic |
| LoadDelay.DelayedLoads.RunOpcode | src/mips_base.cpp:546-550 | the same for an instruction given by its opcode |
| LoadDelay.DelayedLoads.Queue | src/mips_base.cpp:876-916 | a pending load is completed before the next is queued; "Consecutive loads not handled" is not reachable |
| LoadDelay.DelayedLoads.ExecuteDelayedLoad | src/mips_base.cpp:919-942 | the first count waits, the second delivers |
| LoadDelay.DelayedLoads.Write | src/mips_base.cpp:799-834 | a register write cancels a pending load of the same register |
| LoadDelay.LoadedValueArrives | src/mips_base.cpp:876-942 | after a load the next opcode reads the old value unless it flushes, and afterwards the register holds the loaded value unless that opcode wrote it |
| LoadDelay.DelayIsInvisible | src/mips_base.cpp:876-942 | a program that never depends on the delay runs as if loads were immediate |
| Encoding.RoundTrip | src/mips_decode.cpp:11-316 | decoding the word that an instruction's numeric fields encode gives back its identifier and every field, in all eight formats |
| Encoding.ParseEncodes | src/mips_decode.cpp:199-316 | every word with a known identifier is the encoding of its own fields |
| Encoding.UnknownWords | src/mips_decode.cpp:199-316 | a word is unknown if and only if no instruction encodes to it |
| Encoding.BranchWords | src/mips_decode.cpp:556-622 | which words end a block and which have a delay slot, by opcode, rs, rt and function number |
| InstructionMeaning.RegisterSum | src/mips_base.cpp:1449-1468 | the encoded register forms of add and subtract write the exact signed result at their width, or trap when it does not fit |
| InstructionMeaning.ImmediateSum | src/mips_base.cpp:1471-1490 | the same for the immediate forms, with the signed immediate |
| InstructionMeaning.Product | src/mips_base.cpp:1555-1576 | for the encoded multiplications HI:LO is the exact product of the two registers |
| InstructionMeaning.Quotient | src/mips_base.cpp:1513-1552 | for the encoded divisions LO and HI are the truncated quotient and remainder, zero divisor and overflow included |
| InstructionMeaning.HiLoMove | src/mips_base.cpp:2209-2232 | MFHI, MFLO, MTHI and MTLO move between the named register and HI or LO |
| InstructionMeaning.RegisterComparison | src/mips_base.cpp:1711-1726 | SLT and SLTU write 1 or 0 for the signed or unsigned comparison |
| InstructionMeaning.ImmediateComparison | src/mips_base.cpp:1729-1745 | SLTI and SLTIU compare with the sign-extended immediate, signed and unsigned |
| InstructionMeaning.RegisterLogic | src/mips_base.cpp:1579-1594 | AND, OR, XOR and NOR combine the registers bit by bit |
| InstructionMeaning.ImmediateLogic | src/mips_base.cpp:1597-1604 | ANDI, ORI and XORI combine bit by bit with the zero-extended immediate |
| InstructionMeaning.LoadUpper | src/mips_base.cpp:1703-1709 | LUI writes the signed immediate times 2^16 |
| InstructionMeaning.Shift | src/mips_base.cpp:1606-1660 | every bit of a shift's result is the bit of rt that direction, width, sign and amount select, for all fifteen shifts |
| InstructionMeaning.NoHandler | src/mips_base.cpp:2948-2952 | unknown words, LL, LLD, SC and SCD end the run |
| MemoryMeaning.LoadReads | src/mips_base.cpp:1942-2019 | an encoded load raises an address error with its address if and only if a strict CPU finds it unaligned, ends the run at a miss, and otherwise writes the big-endian number of its bytes, sign- or zero-extended |
| MemoryMeaning.StoreWrites | src/mips_base.cpp:2108-2146 | an encoded store does the same for its low bytes, most significant first, and changes no other byte and no register |
| MemoryMeaning.UnalignedCompletes | src/mips_base.cpp:2022-2184 | an unaligned access raises no exception, completes if and only if every byte from its address to the end (left forms) or start (right forms) of the word translates, and for stores is writable, and otherwise ends the run |
| MemoryMeaning.LoadPairReads | src/mips_base.cpp:2022-2080 | the encoded LWL/LWR and LDL/LDR pairs load the bytes at the first address, whatever the alignment |
| MemoryMeaning.StorePairWrites | src/mips_base.cpp:2148-2184 | the encoded SWL/SWR and SDL/SDR pairs change exactly those bytes |
| TlbMeaning.EntryMaps | src/mips_tlb_normal.cpp:33-60 | an entry with pages of size P maps a if and only if the pair numbers hi/2P and a/2P and the address spaces agree and the half a/P mod 2 is valid; the address is that half's frame rounded to P plus a mod P, read-only if and only if its D bit is clear |
| TlbMeaning.TranslationMaps | src/mips_tlb_normal.cpp:16-60 | every address translates as the first entry that maps its page says, kseg0 and kseg1 to the low 512 MB, and is not found if and only if none maps it |
| TlbMeaning.ProbeIndex | src/mips_cop0.cpp:85-90 | TLBP leaves the least index whose bits 13 to 27 and address space agree; a miss leaves index 0, as a hit at entry 0 does |
| TlbMeaning.FaultHi | src/mips_tlb_normal.cpp:120-123 | what a TLB exception leaves in EntryHi is the address under 0xFFFE000 or-ed with the ASID |
| TlbMeaning.EntryHiMask | src/mips_tlb_normal.cpp:84-86 | EntryHi keeps the bits of the mask 0xFFFFE0FF |
| TlbMeaning.PageMaskMask | src/mips_tlb_normal.cpp:108-110 | PageMask keeps the bits of the mask 0x1FFE000 |
| ExceptionMeaning.ExceptionVectors | src/mips_base.cpp:945-1029 | an exception panics if and only if a branch is pending and the word at pc - 4 has no delay slot; otherwise pc is 0x80000180, EXL is set, EPC, BD, the exception code, the unit and the pending bits are given by fields |
| ExceptionMeaning.PollServes | src/mips_base.cpp:443-505 | a poll ends at the vector if and only if IE is set, EXL and ERL are clear, and bit 8 or 9 of Status meets the same bit of Cause, bit 10 the bus line, or bit 15 the timer's line, latched before or by this poll; otherwise it only refreshes Cause |
| ExceptionMeaning.MatchIsServed | src/mips_base.cpp:443-505 | in a quiet run a poll that reports a match of Count and Compare ends at the vector when the timer is unmasked and interrupts are enabled |
| StepMeaning.StepComputes | src/mips_base.cpp:508-562 | a computing word commits its outcome and goes on, or takes its exception with EPC at itself and writes nothing, or panics |
| StepMeaning.StepTraps | src/mips_base.cpp:1927-1940 | SYSCALL and BREAK raise exceptions 8 and 9 |
| StepMeaning.StepRests | src/mips_base.cpp:2341-2343 | NOP, SYNC and CACHE leave registers, memory and coprocessor 0 and go on |
| StepMeaning.StepBranches | src/mips_base.cpp:1747-1868 | an integer branch sets the flag if and only if its signed comparison holds, its target is pc + 4 + 4 * the signed immediate, an untaken likely branch continues at pc + 8 and any other at pc + 4, and only the linking forms write r31 |
| StepMeaning.StepCopBranches | src/mips_base.cpp:2345-2402 | a branch on a usable coprocessor does the same on the condition flag |
| StepMeaning.StepUnusable | src/mips_base.cpp:1067-1078 | an instruction of a coprocessor that Status disables raises exception 11 with the unit's number |
| StepMeaning.StepJumps | src/mips_base.cpp:1871-1891 | J and JAL go to 28 bits of the word in the segment of the delay slot, and JAL links |
| StepMeaning.StepRegisterJumps | src/mips_base.cpp:1894-1924 | JR and JALR go to the register, or panic when it is unaligned; JALR links |
| Cop0Meaning.StepMovesFrom | src/mips_base.cpp:2256-2273 | mfc0 and dmfc0 write what the register shows, the former sign-extended, and change no register but a Count base |
| Cop0Meaning.StepMovesTo | src/mips_base.cpp:2296-2318 | after mtc0 or dmtc0 every later move reads what the register keeps of the value and, from every other register, what it read before; Count runs on from the written value, or from zero when it exceeds the instant of the write |
| Cop0Meaning.CountAfterWrite | src/mips_cop0.cpp:487-505 | a read of Count after a write gives the written value plus the instants passed, or only those when the value lay ahead |
| Cop0Meaning.HandlerReads | src/mips_base.cpp:982-1015 | where a handler reads EPC, Cause by fields, Status, BadVAddr and Compare after an exception |
| Cop0Meaning.AfterReset | src/mips_cop0.cpp:45-57 | after Reset interrupts are off and masked, no exception is in progress, coprocessor 1 is usable and 2 and 3 are not, and Count shows the instant |
| Cop0Meaning.StepReturns | src/mips_cop0.cpp:100-115 | ERET resumes at ErrorEPC and clears ERL while ERL is set, else at EPC and clears EXL; it drops the linked load |
| Cop0Meaning.StepPopsMode | src/mips_cop0.cpp:91-99 | RFE moves bits 2 to 5 of Status to bits 0 to 3 and keeps the rest |
| Cop0Meaning.StepIgnoresCommand | src/mips_cop0.cpp:117-119 | every other command of coprocessor 0 does nothing |
| Cop0Meaning.StepControlMoves | src/mips_base.cpp:2276-2293 | cfc0 reads zero and ctc0 is ignored |
| CacheEffects.CacheMarks | src/mips_base.cpp:2497-2514 | opcode 47 with bit 16 clear, on a CPU that uses its cache, adds to the pending set exactly the blocks that hold a byte of the 32-byte line, and no other word changes the cache |
| CacheEffects.EntriesMark | src/mips_base.cpp:305-358 | the entries of a visit mark exactly the blocks that one of them hits |
| CacheEffects.HitBlocksAreErased | src/mips_cache.cpp:162-198 | where no block outlives another, every block that an entry hit is gone after the pending clear, whatever else was pending and in every map order |
| CacheInCpu.RunThenFind | src/mips_base.cpp:279-300 | after a block is run, the next lookup does not return an object that held a byte of a line the block invalidated |
| Cache.ClosedPartIsErased | src/mips_cache.cpp:177-196 | a part of the marked set that is closed under containment is erased, whatever else is marked |
| LoadDelay.EffectByFields | src/mips_base.cpp:799-942 | the effect of every word on the load delay by its opcode, function and register fields: what flushes, what is delayed, and which register is written at once |

## Left out

- Floating point (`src/mips_fpu.cpp`): the FPU's registers, arithmetic and comparisons; coprocessor 1 to 3 operations end the model's run after the usability check.
- LWC, SWC, LDC and SDC: coprocessor memory transfers end the model's run; LL, LLD, SC and SCD have no handler in the source either.
- TLB commands and TLB registers as instructions: they end the run of the CPU model, because its TLB mapping is fixed; the TLB itself and these commands are modelled in `Tlb.dfy`.
- The Random register: its rejection loop depends on a random generator.
- Bus devices: the bus is a total byte memory, a fixed function from physical addresses to fetched words, and an interrupt line.
- Self-modifying code: stores do not change the words Fetch gives, so a block scanned again after CACHE holds the same words; which cached objects survive is proved.
- TLB misses in the CPU: they panic in this configuration, and so does the model.
- `InvalidateBlock(address)` and `GetOverlappingEntry`: the interpreter does not use them.
- Hash-map internals: the iteration order is arbitrary, and erasing one block is assumed not to move another.
- Machine widths of the timestamps and cycle counters: they are unbounded here.
- Configurations: 32-bit registers, little-endian order, no coprocessor 0, exceptions off, PSX hooks, lazy interrupt polling, the coprocessor decoding override and the isolate-cache bit are not modelled; the load delay has its own model.
- Disassembly, names, logging, dumps and hooks: text and output.
- Probe against translation: the two compare different address bits in the top nibble, so no equivalence is claimed.
- TlbMeaning.EntryMaps: concerns page masks that describe a page size; a mask with holes selects several address bits, and only the page-granular laws cover it.
- Interrupt handlers: that a particular handler gives back registers, memory and coprocessor 0 before its ERET is its author's obligation.
- Timer.CountingLoop: its index is unbounded, where the disabled loop of the source counts in an int.
- Interpreter.Mips.ExecuteInst: ends the run at operations of coprocessors 1 to 3, at TLB commands and at moves of TLB registers, which are outside this CPU model.
- Interpreter.Mips.InstCop: the same, because the FPU is not modelled and the CPU's TLB mapping is fixed.
- Blocks that are not consecutive in physical memory: a block that runs across pages with unrelated frames, off its kseg segment, or past 2^32 is cached under an interval that is not its bytes; the exactness of invalidation is stated for the others.
- CacheRuns.CreatedBlockIsFound: concerns a pc that translates; when it does not, the scan panics before any lookup.
- Refinement.BonusStep: counts two idle hits for a block when a branch may sit in a delay slot; one otherwise.
