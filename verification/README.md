# The dynamic translator, modelled and proved

The emulator runs RISC-V 64 guests in two ways: an interpreter, and a translator that turns guest blocks into
aarch64 code. This project models both, with the register cache, the code buffer, the memory permission checks, the
trampoline and the loops that tie them together. It proves what translated code does for every guest, and that this is
what the interpreter does exactly where the source lets it be. Both are held against the instruction set itself, stated in
plain numbers.

How the files fit together:

- `words`, `instruction`, `instruction_words`, `instruction_decoder`: machine words as bounded integers; instruction words,
  the decoder with its fall-through cases, the packed accessors; which words decode.
- `memory`: guest memory with a permission byte for each byte, and the slow and fast forms of the check.
- `interpreter`, `interpreter_object`: the reference semantics as a function of a machine, and the interpreter that
  updates registers and memory in place.
- `host`: the small aarch64 machine translated code runs on. Code is a sequence of instructions; a branch continues after
  the first binding of its label further on, so control only goes forward. An access through a wrong base register, an
  index outside its array, a return address that is not the trampoline's or the end of the code is a crash.
- `instruction_set`: the instructions of RV64IM the engines complete, as relations on numbers that use nothing of either
  engine but the decoder. `number_laws`, `value_laws`, `instruction_laws`: which numbers the functions on words give; for
  which values, instructions and runs each engine does what the instruction set asks, both ways.
- `register_cache`, `cache_properties`, `cache_meaning`, `cache_runs`: the translation-time cache as a value; which slots it
  evicts and when it fails; what it means at run time (a slot that is dirty holds the guest value in its host register, a
  register not cached or clean has it in the table); and the same over every sequence of operations. `cache_times`: which
  registers were used when, over every such sequence. `cache_traffic`: which loads and stores a lock emits.
- `translator`: what is emitted for each instruction, with the cache, labels and pending exits it leaves.
  `translation_checks`, `labels` and `forward_code` are about translation itself.
- `code_meaning`, `access_meaning`, `branch_meaning`, `compute_meaning`, `value_agreement`: what the pieces of emitted code do.
- `simulation`, `engine`, `instruction_simulation`, `access_simulation`, `block_simulation`: `engine` defines what one
  instruction comes to under the translator, for every guest; the others prove that emitted code does just that, from one
  instruction to a whole block.
- `operand_agreement`, `agreement`: for which operands the two engines compute the same value, and when an instruction under
  the translator is a step of the interpreter, both exactly; runs made of such.
- `register_cache_object`, `code_generator`: the classes that update arrays, maps and the assembler in place, proved to emit
  exactly the code of `translator`.
- `code_layout`, `code_buffer`, `publication`: how code lies in words, the allocator and block table, alone and shared between
  threads. Each word has a history, and each thread a view of how far it has seen each; others see a thread's stores late
  and in any order, unless they take over its view by an acquire load of an entry it stored with release, or by the mutex.
  A thread in translated code reads the table with the instructions of that code; `table_reads` shows which those are,
  `sample_blocks` and `stale_reads` what happens where they are not acquire loads.
- `virtual_machine`, `code_length`, `whole_run`, `vm_object`: whole runs as a step machine, for every guest; how large a
  code buffer suffices; runs against the interpreter; and the runs as loops in place.
- `trampoline`, `native_call`: saved registers, the way into translated code and back, around any number of blocks.
- `divergences`: where the two engines part, each with its exact condition. `first_run`: a guest for which the hypotheses of
  the whole-run theorems hold. `stray_guests`: a guest for each difference in the flow of control, with what both engines do.

The theorems about every guest (`VirtualMachine.Prepared`: host safety, coherence, bounded translation) assume that
permission checks are on; no byte is both writable and executable; x0 is zero; memory is smaller than 2^64 - 8 bytes; and
the block table fits the address space and the code buffer is below four gigabytes. Those against the interpreter
(`WholeRuns.Started`) assume besides that the entry pc is aligned and within the block table. They speak of a run as far as
no state on the interpreter's way fails the test `Agreement.Faithful`. `Agreement.FaithfulIsExact` shows that test to be
exact, clause by clause: branch targets that are misaligned or past the block table, odd jalr targets, loads to x0 that
would fault, operands for which the two engines compute different values or C++ none, and an instruction left to the
interpreter after which the pc is past the table. `OperandAgreement` says which operands those are: wherever C++ is defined
the values differ for Srai, Sra and Mulw only, and for those it gives the exact condition on the operands.
`Divergences.EntryIsExact` and `Divergences.HandOverIsExact` state the clauses on the entry pc and on instructions handed
over for the Vm itself. `WholeRuns.RunMeetsInstructionSet` needs only `Prepared`, and holds against the instruction set as
far as the guest's pc is a multiple of four and it meets none of the instructions of `InstructionLaws.Strays`: divisions
by zero, loads to x0 that would fault, and jalr to an odd address whose block is not translated yet.

Where code and documentation or intent differ, the code is followed: the interpreter's Srai and Sra shift left and its Mulw
divides; loads to x0 are not generated; a multiplication or division into x0 falls through to the unsupported exit and so
to the interpreter; division by zero gives the host's zero; exits for a misaligned static target carry the pc of the
branch; and the encoding of Sraiw decodes as undefined.

## Model

| member | source | states |
|---|---|---|
| WholeRuns.RunIsSound | src/vm/Vm.cpp:24-63 | after any number of trips k instructions have been done; if the engines differ in none of the first k states of the interpreter's run, the guest is where the interpreter is after k steps, and has not left the block table; if not in the next either, an exit of the Vm is the one the interpreter comes to there, with the same registers, pc and memory, and otherwise only a full code buffer, undefined C++ or fatal_error ends a run |
| WholeRuns.RunIsComplete | src/vm/Vm.cpp:24-63 | when the interpreter stops after some number of steps in none of which the engines differ, the Vm is at the same state and stops in the same way after at most twice as many trips and two more; only a buffer without room for every block can fill up before that |
| WholeRuns.AgreesUntil | src/vm/Vm.cpp:24-63 | however long a run and whatever the guest meets later: up to the first state in which the engines differ its way is the interpreter's |
| WholeRuns.RunMeetsInstructionSet | src/vm/Vm.cpp:24-63 | for every guest and after any number of trips: the guest is where k steps of the RISC-V instruction set, stated in plain numbers, lead, at least half an instruction further for each trip, as long as the pc on the way is a multiple of four and the instructions there are none of those the engine strays on |
| VirtualMachine.AlwaysCoherent | src/vm/jit/CodeBuffer.cpp:45-76 | for every guest without bytes both writable and executable, and permission checks on: in every reachable state each table entry that is set leads to exactly the code that translating its block from guest memory as it now is would give, and no executable byte has changed |
| VirtualMachine.RunIsTranslated | src/vm/Vm.cpp:24-63 | for every such guest: after any number of trips the guest is where the one run of the translator's own semantics has it, with code for exactly the blocks that run expects, and at least half an instruction further for each trip; no run ends in a host fault, and one that ends without an exit ends for a misaligned pc, one past the table, a full buffer, or what the interpreter meets when an instruction is left to it |
| VirtualMachine.LookupIsExact | src/vm/jit/CodeBuffer.cpp:45-76 | the trip that looks a pc up reads past the table if and only if the pc is aligned and past it, and fails the verify of insert if and only if it is misaligned |
| CodeLengths.TranslateLength | src/vm/jit/aarch64/CodeGenerator.cpp:769-807 | the code of any block is at most 151 words for each word of guest memory and 31 more, however many words from one to four the assembler takes for each move of an immediate |
| CodeLengths.NeverFull | src/vm/jit/CodeBuffer.cpp:18-30 | in a buffer with room for that many bytes for each empty entry, alignment included, no run of any guest ends for want of room |
| CodeLayout.FlattenWords | src/vm/jit/CodeBuffer.cpp:18-30 | code laid out in words, labels with the word that follows and long moves over several, reads back as the same code |
| CodeLayout.WordsLength | src/vm/jit/CodeBuffer.cpp:18-30 | it takes as many words as its instructions do, and one more only for a label at the very end |
| CodeLayout.WordsTaken | src/vm/jit/CodeBuffer.cpp:18-30 | a move of an immediate takes the words given for its value, anything else one |
| VirtualMachine.TranslateSameCode | src/vm/jit/aarch64/CodeGenerator.cpp:769-807 | translation depends on memory only through executable bytes, sizes and permissions |
| VirtualMachine.StaysCoherent | src/vm/jit/aarch64/CodeGenerator.cpp:160-212 | code in the buffer stays right for any memory that agrees on executable bytes, sizes and permissions |
| VirtualMachine.InsertCoherent | src/vm/jit/aarch64/Executor.cpp:39-46 | translating a block and publishing it keeps every other block and adds its own |
| VirtualMachine.EachTranslationFills | src/vm/jit/CodeBuffer.cpp:56-76 | the number of entries set grows by one with each translation and by nothing else |
| VirtualMachine.TranslatedOnce | src/vm/jit/CodeBuffer.cpp:56-76 | in any run of any guest no address is translated twice, and no more blocks are translated than the table has entries |
| VirtualMachine.BoundedMisses | src/vm/jit/aarch64/Executor.cpp:39-76 | for every such guest BlockNotGenerated comes back at most once for each entry that was empty at the start, however long the run, odd jalr targets included |
| FirstRun.EcallRuns | src/vm/Vm.cpp:24-63 | a guest that only makes an environment call, with a new buffer of 2572 bytes, meets the hypotheses of these theorems, and has left with Ecall after two trips, unchanged |
| VmObject.GuestVm.RunFor | src/vm/Vm.cpp:24-63 | the loops of Vm::run and Executor::run, in place over registers, memory and code buffer: the state after each trip is that of the step machine and never a host fault, whatever the guest; and an exit is one the interpreter reaches if the engines differ in no state up to there |
| VmObject.GuestVm.DispatchTrip | src/vm/jit/aarch64/Executor.cpp:39-61 | looks up the pc, translates and inserts when there is no code, and builds the state in which code is entered |
| VmObject.GuestVm.GenerateCode | src/vm/jit/aarch64/Executor.cpp:14-30 | generates the block with a fresh generator and inserts it; None where a verify fails |
| VmObject.GuestVm.CodeTrip | src/vm/jit/aarch64/Executor.cpp:63-76 | runs code to where it leaves and takes over what the trampoline brings back |
| VmObject.GuestVm.ReturnTrip | src/vm/jit/aarch64/Executor.cpp:71-96 | both switches on the exit reason: go on, leave with the matching exit, or give the instruction to the interpreter |
| VmObject.GuestVm.InterpretTrip | src/vm/Vm.cpp:50-57 | one interpreter step in place of an instruction that code left alone |
| BlockSimulation.TranslatedBlock | src/vm/jit/aarch64/CodeGenerator.cpp:769-807 | for every guest: the code of a block, entered with the guest registers in the table, never faults on the host and always leaves; some of its instructions fall through, and it leaves with exactly the effect of the next, all of the guest in the table and the platform register, frame pointer and return address untouched: into the code of the block at the target, or back with a pc and a reason |
| BlockSimulation.RestOfBlock | src/vm/jit/aarch64/CodeGenerator.cpp:769-796 | the same from any instruction of a block on, for any cache state the translator may have there and any effects of the instructions |
| BlockSimulation.InstructionSimulates | src/vm/jit/aarch64/CodeGenerator.cpp:294-767 | for every instruction and every guest state the emitted code has exactly the effect defined for it: it goes on with the next instruction's code and the cache facts intact, branches through the block table, or leaves with a reason |
| BlockSimulation.ExitsResolve | src/vm/jit/aarch64/CodeGenerator.cpp:109-125 | every exit label of an instruction is found again behind the rest of the block |
| BlockSimulation.DecodedWellFormed | src/vm/Instruction.cpp:22-150 | every instruction word decodes to an immediate of 32 bits and a shift amount within the width of its shift |
| Engine.EffectOfKeeps | src/vm/jit/aarch64/CodeGenerator.cpp:294-767 | whatever an instruction does under the translator, memory stays well formed and write-xor-execute, x0 zero and every executable byte as it was; only an instruction that falls through changes memory at all |
| Engine.EngineKeeps | src/vm/Vm.cpp:24-63 | so does a run of any length in which the interpreter takes some of the instructions |
| Agreement.FaithfulIsExact | src/vm/Interpreter.cpp:12-377 | for every instruction and state: one instruction under the translator, the interpreter's help included, is one step of the interpreter if and only if the stated test of its operands passes, or it is a jalr to an odd address whose block is translated |
| Agreement.EngineIsInterpreter | src/vm/Vm.cpp:24-85 | where the first k states on the interpreter's way pass that test, k instructions under the translator are k steps of the interpreter |
| Agreement.LastState | src/vm/Vm.cpp:65-85 | the interpreter's run from a state is one sequence, and a state it cannot step from is its last |
| InstructionLaws.TranslatedLaw | src/vm/jit/aarch64/CodeGenerator.cpp:294-767 | for every instruction and state: what translated code completes is a step of the instruction set, stated as a relation on numbers that uses none of the translator's or interpreter's functions, if and only if it is not a division by zero into a register, nor a load to x0 of bytes that may not be read |
| InstructionLaws.InterpretedLaw | src/vm/Interpreter.cpp:12-377 | and what the interpreter completes is one if and only if it is not a Srai, Sra or Mulw into a register whose operands fail the test of OperandAgreement |
| InstructionLaws.MoveLaw | src/vm/Vm.cpp:24-63 | so is what the engine does with an instruction, translated or left to the interpreter, if and only if it is neither of those, nor a jalr to an odd address whose block is not translated |
| InstructionLaws.EngineRunsLaw | src/vm/Vm.cpp:24-63 | k such moves, on a way with the pc a multiple of four and without those instructions, are k steps of the instruction set |
| InstructionLaws.FaithfulRunsLaw | src/vm/Vm.cpp:65-85 | so are k steps of the interpreter where the engines agree |
| InstructionLaws.ExecutesOnce | src/vm/Interpreter.cpp:12-377 | the instruction set leaves no choice: each instruction leads from a state to at most one, all registers and bytes of memory included |
| InstructionLaws.TranslatedAccess | src/vm/jit/aarch64/CodeGenerator.cpp:396-469 | a translated load or store does what the instruction set asks if and only if the address is a multiple of 1, 2, 4 or 8, all those bytes are inside memory and each has the bit 1 or 2 of its permissions; otherwise it leaves with the fault, everything as before |
| InstructionLaws.TranslatedJumps | src/vm/jit/aarch64/CodeGenerator.cpp:236-260 | where translated jal and taken branches go, in numbers: to a target that is a multiple of 4 below 4 times the table size; otherwise out, for misalignment first, with the branch's own pc; nothing but the link register is written, and that either way |
| InstructionLaws.TranslatedJalr | src/vm/jit/aarch64/CodeGenerator.cpp:262-355 | the same for jalr, which goes to the address less its lowest bit, while its exits and its report of a missing block have the address as it is |
| InstructionLaws.InterpretedAccess | src/vm/Interpreter.cpp:94-178 | an interpreted one does if and only if the bytes are inside and permitted, aligned or not; otherwise it faults with the address and register |
| InstructionLaws.InterpretedStops | src/vm/Interpreter.cpp:12-377 | in which exit, fatal error or undefined C++ the interpreter stops, for every pc and every instruction |
| InstructionLaws.FetchLaw | src/vm/Interpreter.cpp:19-27 | an instruction is fetched if and only if it decodes from the little-endian number of four bytes inside memory that all have the bit 4 of their permissions |
| InstructionSimulation.ComputeSimulates | src/vm/jit/aarch64/CodeGenerator.cpp:471-736 | for all operands, instructions that compute a register leave the host's value in it and nothing else changed; into x0 they emit nothing, or, for multiplications and divisions, leave to the interpreter; what that value is states ValueLaws.TranslatedValueLaw |
| InstructionSimulation.JalMeaning | src/vm/jit/aarch64/CodeGenerator.cpp:319-330 | where jal goes for every target; a misaligned one or one past the table leaves with jal's own pc, the link register already written |
| InstructionSimulation.JalrMeaning | src/vm/jit/aarch64/CodeGenerator.cpp:332-355 | where jalr goes for every target, also when the link register is the one that held the target; exits report the address unmasked |
| InstructionSimulation.JalrLink | src/vm/jit/aarch64/CodeGenerator.cpp:337-348 | writing the link register keeps the target, which moves to the scratch register first when the two are one |
| AccessSimulation.BranchPieceMeaning | src/vm/jit/aarch64/CodeGenerator.cpp:357-394 | both ways out of a conditional branch: flushing on the taken path changes nothing of what the cache promises on the other |
| AccessSimulation.LoadMeaning | src/vm/jit/aarch64/CodeGenerator.cpp:396-437 | a load gives the extended value in memory when it is aligned and permitted, and otherwise the fault exit with all registers as before, although the destination was locked for writing and others evicted; what the extended value is states NumberLaws.ExtendedIs |
| AccessSimulation.StoreMeaning | src/vm/jit/aarch64/CodeGenerator.cpp:438-469 | a store leaves memory with just its bytes written when it is aligned and permitted, and otherwise the fault exit with nothing changed |
| BranchMeaning.StaticBranchMeaning | src/vm/jit/aarch64/CodeGenerator.cpp:236-260 | all outcomes of a static branch: two errors found at translation time, the missing block, the jump |
| BranchMeaning.DynamicBranchMeaning | src/vm/jit/aarch64/CodeGenerator.cpp:262-292 | all outcomes of a branch through a register, with the lowest bit masked for the tests and the jump but not in the exits |
| BranchMeaning.LookupAndGo | src/vm/jit/aarch64/CodeGenerator.cpp:214-234 | reading the block table at the target and jumping there, or leaving for the block to be generated, with the guest state in the table either way |
| BranchMeaning.TakeFault | src/vm/jit/aarch64/CodeGenerator.cpp:88-125 | the stub found behind a fault label gives back the guest registers of the moment its snapshot was taken |
| CodeMeaning.ValidatedBranchMeaning | src/vm/jit/aarch64/CodeGenerator.cpp:214-234 | in both forms of the table read, zero goes to the label and anything else is jumped to |
| TableReads.TranslateOrdered | src/vm/jit/aarch64/CodeGenerator.cpp:214-222 | in the code of any block each read of the block table is an acquire load if the buffer is multithreaded and a plain one if not |
| CodeMeaning.LoadImmediateMeaning | src/vm/jit/aarch64/CodeGenerator.cpp:27-42 | either form of loading an immediate gives the immediate and changes nothing else, whichever additions the assembler accepts |
| CodeLengths.NearImmediate | src/vm/jit/aarch64/CodeGenerator.cpp:27-42 | and which form it is: one instruction relative to the pc if and only if the signed distance is within 0x7fff either way and the assembler takes it, a move otherwise |
| CodeMeaning.AddOffsetMeaning | src/vm/jit/aarch64/CodeGenerator.cpp:56-72 | the register returned holds the sum, and only the scratch register may have changed |
| CodeMeaning.ExitMeaning | src/vm/jit/aarch64/CodeGenerator.cpp:74-80 | an exit hands back every guest register in the table, the pc and the reason, whatever is cached or locked |
| CodeMeaning.StubMeaning | src/vm/jit/aarch64/CodeGenerator.cpp:109-125 | a stub restores the guest registers of the moment its snapshot was taken, wherever it was emitted and whatever the cache did later |
| Labels.StubsResolve | src/vm/jit/aarch64/CodeGenerator.cpp:109-125 | looking up the label of any exit among the pending exits finds its own stub |
| ForwardCode.EveryLabelBoundOnce | src/vm/jit/aarch64/CodeGenerator.cpp:74-292 | in the code of a block each label allocated is bound exactly once and after all its uses, and no other label occurs: control only goes forward |
| ForwardCode.JoinOwns | src/vm/jit/aarch64/CodeGenerator.cpp:769-796 | pieces that own consecutive ranges of labels join to one that owns them all |
| TranslationChecks.InstructionOk | src/vm/jit/aarch64/CodeGenerator.cpp:294-767 | from a cache without locks, translating any instruction passes every verify and leaves no lock |
| TranslationChecks.BlockOk | src/vm/jit/aarch64/CodeGenerator.cpp:769-796 | so does a whole block: the cache is never full, nothing is locked at the end of an instruction |
| TranslationChecks.JalrLocks | src/vm/jit/aarch64/CodeGenerator.cpp:332-352 | jalr's second lock succeeds while the first is held and keeps the register that gave |
| CodeGeneration.CodeGenerator.constructor | src/vm/jit/aarch64/CodeGenerator.cpp:810-828 | a fresh generator: empty assembler, empty cache, no pending exits |
| CodeGeneration.CodeGenerator.LoadImm | src/vm/jit/aarch64/CodeGenerator.cpp:27-42 | appends the chosen form of loading an immediate |
| CodeGeneration.CodeGenerator.LoadImmOrZero | src/vm/jit/aarch64/CodeGenerator.cpp:44-51 | answers the zero register for zero |
| CodeGeneration.CodeGenerator.AddOffsetToRegister | src/vm/jit/aarch64/CodeGenerator.cpp:56-72 | appends the addition needed, if any, and names the register of the sum |
| CodeGeneration.CodeGenerator.GenerateExit | src/vm/jit/aarch64/CodeGenerator.cpp:74-80 | flushes, loads pc and reason, returns |
| CodeGeneration.CodeGenerator.GeneratePendingExits | src/vm/jit/aarch64/CodeGenerator.cpp:109-125 | appends all stubs, in the order in which the exits were added |
| CodeGeneration.CodeGenerator.PermissionMask | src/vm/jit/aarch64/CodeGenerator.cpp:127-158 | the loop over bytes builds the flag times 0x0101010101010101 |
| CodeGeneration.CodeGenerator.GenerateValidateMemoryAccess | src/vm/jit/aarch64/CodeGenerator.cpp:160-212 | appends the check and its exit, with a snapshot of the cache as it is then |
| CodeGeneration.CodeGenerator.GenerateValidatedBranch | src/vm/jit/aarch64/CodeGenerator.cpp:214-234 | appends the table read, with acquire exactly for a multithreaded buffer, and the jump, and allocates the label for a missing block |
| CodeGeneration.CodeGenerator.GenerateStaticBranch | src/vm/jit/aarch64/CodeGenerator.cpp:236-260 | appends a branch to a known pc and its exit |
| CodeGeneration.CodeGenerator.GenerateDynamicBranch | src/vm/jit/aarch64/CodeGenerator.cpp:262-292 | appends a branch through a register and its three exits |
| CodeGeneration.CodeGenerator.GenerateCompute | src/vm/jit/aarch64/CodeGenerator.cpp:471-736 | locks, emits, unlocks for instructions that compute a register; no verify fails |
| CodeGeneration.CodeGenerator.GenerateImmediate | src/vm/jit/aarch64/CodeGenerator.cpp:471-538 | each way of encoding an operation with an immediate, by what the assembler accepts |
| CodeGeneration.CodeGenerator.GenerateJalr | src/vm/jit/aarch64/CodeGenerator.cpp:332-355 | locks target and link in turn, moves the target aside if need be, and branches |
| CodeGeneration.CodeGenerator.GenerateBranch | src/vm/jit/aarch64/CodeGenerator.cpp:357-394 | the comparison, the taken path and the skip label |
| CodeGeneration.CodeGenerator.GenerateLoad | src/vm/jit/aarch64/CodeGenerator.cpp:396-437 | the check, the load and its exit, or nothing for x0 |
| CodeGeneration.CodeGenerator.GenerateStore | src/vm/jit/aarch64/CodeGenerator.cpp:438-469 | the check, the store and its exit |
| CodeGeneration.CodeGenerator.GenerateInstruction | src/vm/jit/aarch64/CodeGenerator.cpp:294-767 | the switch over instruction types, and whether the block goes on |
| CodeGeneration.CodeGenerator.GenerateBlock | src/vm/jit/aarch64/CodeGenerator.cpp:769-796 | the translation loop, which ends because each round takes four bytes of memory |
| CodeGeneration.CodeGenerator.GenerateCode | src/vm/jit/aarch64/CodeGenerator.cpp:798-807 | from a fresh generator the assembler ends up with exactly the code whose simulation is proved |
| CacheRuns.ViewPreserved | src/vm/jit/aarch64/RegisterCache.cpp:24-202 | over any sequence of lock, write, unlock and finish operations on any register lists, the maps stay inverse, the free list exact, and the guest registers are what was written and nothing else |
| CacheRuns.ReadsWhatWasWritten | src/vm/jit/aarch64/RegisterCache.cpp:83-135 | a register locked for reading after any such sequence is given in a host register that holds what was last written to it, unless it was locked only for writing while not cached, and neither written nor evicted since |
| CacheRuns.UnknownHoldsAnything | src/vm/jit/aarch64/RegisterCache.cpp:83-135 | that exception is exact: such a register is given in a host register that may hold anything |
| CacheRuns.NextValid | src/vm/jit/aarch64/RegisterCache.cpp:24-202 | each operation keeps structure and view; a lock of at most 17 registers passes every verify and its code does not fault |
| CacheProperties.EvictionChoice | src/vm/jit/aarch64/RegisterCache.cpp:24-81 | exactly the missing number of slots is evicted; no victim was locked or holds a requested register; the time of last use kept for it is no later than that of any unlocked slot kept |
| CacheTimes.LeastRecentlyUsed | src/vm/jit/aarch64/RegisterCache.cpp:25-56 | over every run of the cache from the start: the last operation of the run that locked a victim's register belongs to no later an instruction than the last that locked any unlocked register kept, counting modulo 2^32; up to 2^32 instructions so it does outright, and where it is the later operation, both belong to the same instruction |
| CacheTimes.LastUsedMayGo | src/vm/jit/aarch64/RegisterCache.cpp:25-56 | no more than that holds: a run within one instruction after which the one victim of the next lock is the very register locked last |
| CacheTimes.LockTimes | src/vm/jit/aarch64/RegisterCache.cpp:83-135 | a lock gives every requested register the time that is now, and leaves that of every other register kept, and the clock, alone |
| CacheTimes.RunTimed | src/vm/jit/aarch64/RegisterCache.cpp:24-202 | after any run the time kept for each cached register is the number of instructions finished when it was last locked, modulo 2^32, as read off the run |
| CacheTraffic.LockTraffic | src/vm/jit/aarch64/RegisterCache.cpp:42-135 | the code a lock emits stores exactly the dirty victims, each from its own host register, and loads exactly the registers asked for reading that were not cached, each into the register it is given in; there is nothing else in it |
| CacheProperties.OrderIs | src/vm/jit/aarch64/RegisterCache.cpp:25-40 | the eviction order lists every unlocked slot in use exactly once, most recently used first |
| CacheProperties.LockOk | src/vm/jit/aarch64/RegisterCache.cpp:59-135 | locking passes every verify if and only if the registers already locked and those requested are at most 17 together |
| CacheProperties.LockIs | src/vm/jit/aarch64/RegisterCache.cpp:83-135 | a lock keeps the structure and every slot locked before, locks only what was asked for, and answers each request with the register that caches it |
| CacheProperties.EvictLastIs | src/vm/jit/aarch64/RegisterCache.cpp:42-56 | eviction empties the last slots of the order, and no other slot changes |
| CacheMeaning.LockMeaning | src/vm/jit/aarch64/RegisterCache.cpp:83-135 | the stores and loads a lock emits leave the guest view as it is, except that registers not cached and locked only for writing are unknown until written, and those evicted are known again |
| CacheMeaning.GivenValue | src/vm/jit/aarch64/RegisterCache.cpp:103-134 | a register given for reading holds its guest value |
| CacheMeaning.WriteMeaning | src/vm/jit/aarch64/RegisterCache.cpp:156-165 | writing through the host register and unlocking dirty changes the view at that register only |
| CacheMeaning.FlushMeaning | src/vm/jit/aarch64/RegisterCache.cpp:167-195 | storing every dirty slot leaves the whole guest state in the table, whatever is locked |
| CacheMeaning.ReserveMeaning | src/vm/jit/aarch64/RegisterCache.cpp:59-81 | evictions store what is dirty and keep the view |
| RegisterCaches.NewCacheValid | src/vm/jit/aarch64/RegisterCache.cpp:137-154 | the invariant of the maps and the free list holds at the start |
| RegisterCaches.EvictSlotValid | src/vm/jit/aarch64/RegisterCache.cpp:46-55 | eviction keeps the invariant, and every locked slot |
| RegisterCaches.AssignSlotValid | src/vm/jit/aarch64/RegisterCache.cpp:117-126 | taking a free slot keeps the invariant, and every locked slot |
| RegisterCaches.MarkCachedLocks | src/vm/jit/aarch64/RegisterCache.cpp:59-74 | marking locks exactly the requested slots, beyond those already locked |
| RegisterCaches.DistinctHostRegisters | src/vm/jit/aarch64/RegisterCache.hpp:50-51 | distinct cached guest registers sit in distinct host registers |
| RegisterCaches.CacheRegInverse | src/vm/jit/aarch64/Registers.hpp:12-35 | slot and host register determine each other, and no cache register is fixed, scratch, X18 or the zero register |
| RegisterCacheObject.RegisterCache.constructor | src/vm/jit/aarch64/RegisterCache.cpp:137-154 | fills the three maps and the free list |
| RegisterCacheObject.RegisterCache.AcquireCacheSlot | src/vm/jit/aarch64/RegisterCache.cpp:17-22 | takes the slot freed last; None when the cache is full |
| RegisterCacheObject.RegisterCache.FreeCacheSlots | src/vm/jit/aarch64/RegisterCache.cpp:24-57 | collects the slots, sorts them and evicts the last, emitting the stores |
| RegisterCacheObject.SortInPlace | src/vm/jit/aarch64/RegisterCache.cpp:36-40 | sorts an array of slots in place, latest use first: the result is the order the eviction theorems are about |
| RegisterCacheObject.RegisterCache.ReserveRegisters | src/vm/jit/aarch64/RegisterCache.cpp:59-81 | locks what is cached and evicts for what is missing, counting duplicates once |
| RegisterCacheObject.RegisterCache.LockRegistersInternal | src/vm/jit/aarch64/RegisterCache.cpp:83-135 | the host registers for a request list, the loads for those that are read, and the time of last use |
| RegisterCacheObject.RegisterCache.UnlockRegister | src/vm/jit/aarch64/RegisterCache.cpp:156-165 | clears the lock and adds the dirty mark; false for a register that is not the cache's |
| RegisterCacheObject.RegisterCache.TakeStateSnapshot | src/vm/jit/aarch64/RegisterCache.cpp:167-184 | the dirty registers by slot |
| RegisterCacheObject.RegisterCache.FlushRegisters | src/vm/jit/aarch64/RegisterCache.cpp:186-195 | a store for each entry of a snapshot, in slot order |
| RegisterCacheObject.RegisterCache.FinishInstruction | src/vm/jit/aarch64/RegisterCache.cpp:197-202 | advances the counter, as 32 bits, unless a slot is still locked |
| Memories.FastIsSlow | src/vm/jit/aarch64/CodeGenerator.cpp:127-212 | for every memory size, the alignment, bounds and mask test passes exactly when the address is aligned and the byte loop passes |
| Memories.MaskedWord | src/vm/jit/aarch64/CodeGenerator.cpp:127-158 | one mask over a word of permission bytes holds exactly when every byte has the flag |
| Memories.X64CheckIsFastCheck | src/vm/jit/x64/CodeGenerator.cpp:144-166 | the x64 form, a partial load and a 64-bit comparison, decides the same whatever was in the upper bits |
| Memories.X64LoadIs | src/vm/jit/x64/CodeGenerator.cpp:144-166 | a partial load keeps the upper bits for one and two bytes and clears them for four |
| AccessMeaning.MaskedCompare | src/vm/jit/aarch64/CodeGenerator.cpp:184-207 | and then compare, at 32 bits for four bytes and 64 otherwise, compare exactly the bytes accessed with the flag |
| AccessMeaning.ValidateMeaning | src/vm/jit/aarch64/CodeGenerator.cpp:160-212 | the emitted check falls through exactly when the access is aligned and the byte loop passes, and goes to the fault label otherwise |
| AccessMeaning.UncheckedMeaning | src/vm/jit/aarch64/CodeGenerator.cpp:160-212 | with permission checks switched off the emitted code checks alignment and that the address is inside memory, and what follows stays within its allocation |
| Memories.LoadOfStore | src/vm/Memory.cpp:37-50 | a value stored and loaded back is the value cut to the width of the access |
| Memories.Memory.constructor | src/vm/Memory.cpp:7-11 | contents and permissions of the least multiple of 8 bytes that holds the size, all zero |
| Memories.Memory.VerifyPermissions | src/vm/Memory.cpp:53-66 | the byte loop: in bounds, and every byte has the flag |
| Memories.Memory.Read | src/vm/Memory.cpp:29-39 | the little-endian value, when every byte may be accessed so |
| Memories.Memory.Write | src/vm/Memory.cpp:41-51 | only the bytes written change, and only when all of them may be written; the padding stays zero |
| Memories.Memory.SetPermissions | src/vm/Memory.cpp:68-77 | the flags of the range, with the padding still zero; out of bounds nothing changes |
| ComputeMeaning.BodyMeaning | src/vm/jit/aarch64/CodeGenerator.cpp:301-317 | the code emitted for each computing instruction leaves its host value in the destination, changing one scratch register and the flags besides |
| ValueLaws.TranslatedValueLaw | src/vm/jit/aarch64/CodeGenerator.cpp:301-736 | for every computing instruction and all operands, the value in translated code is the only one the instruction set allows, as numbers, unless it is a division by zero, and then it is not allowed |
| ValueLaws.InterpretedValueLaw | src/vm/Interpreter.cpp:180-343 | the interpreter's value, where C++ defines one, is allowed by the instruction set if and only if it is the translator's |
| ValueLaws.RemainderLowering | src/vm/jit/aarch64/CodeGenerator.cpp:704-724 | divide, multiply and subtract leaves the remainder of section 7.2 of the RISC-V Unprivileged ISA 20191213 and nothing else, for all operands: the number r with x = y q + r, smaller than y in magnitude and of the sign of x, or x itself for y = 0 |
| ValueLaws.DivisionLowering | src/vm/jit/aarch64/CodeGenerator.cpp:698-701 | translated divisions leave the quotient of that section, and nothing else, if and only if the divisor is not zero |
| ValueLaws.ShiftsRight | src/vm/jit/aarch64/CodeGenerator.cpp:540-673 | translated Srai and Sra are the floor of the signed operand divided by the power of two |
| ValueLaws.InterpreterShiftsLeft | src/vm/Interpreter.cpp:210-290 | interpreted ones are the operand times the power of two, modulo 2^64 |
| ValueLaws.InterpreterDivides | src/vm/Interpreter.cpp:325 | the interpreter's Mulw is the quotient of the low words, undefined if the divisor is zero |
| ValueLaws.InterpreterUndefined | src/vm/Interpreter.cpp:308-343 | the interpreter's C++ is undefined exactly for a zero divisor, or the most negative number of the width over -1 |
| NumberLaws.DividesIs | src/vm/Interpreter.cpp:326-330 | quotient and remainder of C++ are the one pair with x = y q + r, r smaller than y in magnitude and zero or of the sign of x |
| NumberLaws.BitlyIs | src/vm/Interpreter.cpp:193-286 | and, or and exclusive or are the one word each bit of which is x y, x + y - x y and x + y modulo 2 of the bits of the operands |
| NumberLaws.SignExtendIs | src/vm/Interpreter.cpp:115-117 | sign extension from n bits, read as signed, is the number within n bits that is congruent to the operand |
| NumberLaws.ExtendedIs | src/vm/Interpreter.cpp:94-140 | a loaded value is the little-endian number of the 1, 2, 4 or 8 bytes, for Lb, Lh and Lw the congruent one within 8, 16 or 32 signed bits |
| NumberLaws.StoreHolds | src/vm/Memory.cpp:41-51 | each byte stored is that of its place in the value |
| NumberLaws.PermittedIs | src/vm/Memory.cpp:53-66 | read, write and execute are bits 1, 2 and 4 of each byte's permissions |
| ValueAgreement.ComputeAgrees | src/vm/Interpreter.cpp:180-343 | wherever the C++ expression is defined, and apart from Srai, Sra and Mulw, emitted code and interpreter compute the same |
| ValueAgreement.AgreesOnAllOperands | src/vm/Interpreter.cpp:208-343 | for each computing instruction the engines agree on all operands the interpreter defines if and only if it is not Srai by a nonzero amount, Sra or Mulw |
| OperandAgreement.OperandsAgreeIsExact | src/vm/Interpreter.cpp:208-343 | for every computing instruction and all operands: interpreter and translated code compute the same value if and only if the stated test of the operands passes, which is about the bits shifted for Srai and Sra, the product and the quotient for Mulw, and definedness in C++ for divisions |
| OperandAgreement.ShiftsAlikeIsExact | src/vm/Interpreter.cpp:208-343 | shifting left, as the interpreter does for Srai and Sra, gives what shifting right gives if and only if the amount is zero or the bits of the operand repeat every twice the amount, with zeros in the upper half of each period |
| OperandAgreement.WideShiftsAlike | src/vm/Interpreter.cpp:208-343 | for amounts of 32 and more that is so if and only if both shifts give zero |
| OperandAgreement.NarrowShiftsAlike | src/vm/Interpreter.cpp:208-343 | for smaller amounts it is not: an operand that gives the same nonzero value shifted by 31 either way |
| Divergences.MulwMultiplies | src/vm/jit/aarch64/CodeGenerator.cpp:697 | translated Mulw is the low half of the product of the low words, sign extended |
| Divergences.LoadToZero | src/vm/jit/aarch64/CodeGenerator.cpp:403 | a load to x0 is skipped, which is what the interpreter does if and only if the access is permitted |
| Divergences.JalAgrees | src/vm/jit/aarch64/CodeGenerator.cpp:236-245 | jal goes where the interpreter goes if and only if the target is aligned and within the table; else it comes back with its own pc |
| Divergences.JalrAgrees | src/vm/jit/aarch64/CodeGenerator.cpp:269-291 | jalr agrees if and only if the masked target is aligned and within the table and the address is even or its block already translated |
| Divergences.TakenBranchAgrees | src/vm/jit/aarch64/CodeGenerator.cpp:236-245 | a taken branch agrees if and only if the target is aligned and within the table; else it comes back with its own pc |
| Divergences.EntryIsExact | src/vm/jit/aarch64/Executor.cpp:39-47 | the Vm takes a guest on if and only if its pc is aligned and within the table; it fails a verify exactly for a misaligned one, for which the interpreter leaves with UnalignedPc, and reads past the table exactly for one past it |
| Divergences.HandOverIsExact | src/vm/Vm.cpp:50-57 | after an instruction left to the interpreter that goes on, the Vm goes on with its result if and only if the next pc is within the table, and else reads past the table |
| StrayGuests.JalAstray | src/vm/jit/aarch64/CodeGenerator.cpp:240-242 | a guest with a jal to a misaligned address: the interpreter leaves with that pc, the Vm with the pc of the jal |
| StrayGuests.JalrAstray | src/vm/jit/aarch64/CodeGenerator.cpp:269-291 | a guest with a jalr to an odd address whose block is not translated: the interpreter goes to the even address, the Vm fails a verify |
| StrayGuests.BranchAstray | src/vm/jit/aarch64/CodeGenerator.cpp:243-245 | a guest with a taken branch past the table: the interpreter goes there, the Vm leaves with OutOfBoundsPc from the branch |
| StrayGuests.LoadAstray | src/vm/jit/aarch64/CodeGenerator.cpp:403 | a guest with a load to x0 from an unreadable address: the interpreter leaves with the fault, the Vm goes on |
| StrayGuests.AccessAstray | src/vm/Vm.cpp:50-57 | a guest with a misaligned permitted load in the last block of the table: the interpreter goes on, the Vm reads past the table |
| Interpreter.StepKeeps | src/vm/Interpreter.cpp:12-377 | a step keeps memory well formed, x0 zero, no byte both writable and executable, and every instruction as it was |
| Interpreter.StoreKeepsCode | src/vm/Interpreter.cpp:142-178 | a permitted store changes no executable byte |
| Interpreter.FetchSameCode | src/vm/Interpreter.cpp:19-27 | memories that agree on executable bytes are fetched from alike |
| InterpreterObject.Cpu.Get | src/vm/RegisterState.hpp:15 | reads a table entry |
| InterpreterObject.Cpu.Set | src/vm/RegisterState.hpp:17-21 | writes a table entry, x0 excepted |
| InterpreterObject.StepOnce | src/vm/Interpreter.cpp:12-377 | one step in place over registers and memory: goes on, leaves with an exit and nothing changed, is undefined, or is fatal, as the reference semantics says |
| InterpreterObject.StepInstruction | src/vm/Interpreter.cpp:32-376 | the switch over instruction types |
| InterpreterObject.StepLoad | src/vm/Interpreter.cpp:94-140 | a load into the table, or the read fault with address and register |
| InterpreterObject.StepStore | src/vm/Interpreter.cpp:142-178 | a store into memory, or the write fault with address and register |
| InterpreterObject.RunInterpreter | src/vm/Vm.cpp:65-85 | the loop: the state reached after as many steps as it took, and the exit of the step that stopped it |
| Instructions.DecodeEncode | src/vm/Instruction.cpp:8-403 | for every instruction but Sraiw and all fields in range, encoding as in sections 2.2 and 2.3 of the RISC-V Unprivileged ISA 20191213, decoding and reading the accessors gives back type, registers and the sign-extended immediate |
| Instructions.SraiwDecodesAsUndefined | src/vm/Instruction.cpp:107-112 | the encoding of Sraiw always decodes as undefined |
| Instructions.PackedFields | src/vm/Instruction.hpp:103-110 | packing the fields and reading them back gives the same fields |
| Instructions.TypeOfCode | src/vm/Instruction.hpp:10-92 | enumerator values and instruction types correspond one to one |
| InstructionDecoding.InstructionDecoder.constructor | src/vm/Instruction.cpp:406-408 | the packed words of an instruction are those its encoding decodes to |
| InstructionDecoding.InstructionDecoder.DecodeI | src/vm/Instruction.cpp:22-150 | the I-type switch with its cases that fall through, writing nothing for what no case accepts |
| InstructionDecoding.InstructionDecoder.DecodeR | src/vm/Instruction.cpp:170-289 | the R-type switch on opcode, funct7 and funct3, writing nothing for what no case accepts |
| InstructionDecoding.InstructionDecoder.DecodeS | src/vm/Instruction.cpp:291-319 | the S-type switch |
| InstructionDecoding.InstructionDecoder.DecodeB | src/vm/Instruction.cpp:321-352 | the B-type switch |
| InstructionDecoding.InstructionDecoder.DecodeWord | src/vm/Instruction.cpp:368-402 | clears to undefined, then decodes by opcode |
| InstructionWords.DecodableIsExact | src/vm/Instruction.cpp:8-403 | a word decodes to something other than undefined if and only if it is the encoding of an instruction other than Sraiw, or a stray: a shift by an immediate whose upper bits no shift has |
| InstructionWords.EncodeDecode | src/vm/Instruction.cpp:22-403 | the round trip from the other side: every word that decodes and is not a stray is the encoding of just the type, registers and immediate the accessors give |
| InstructionWords.StrayDecodes | src/vm/Instruction.cpp:53-112 | what a stray is taken for: Lh or Lhu, by falling through from opcode 0x13 into the load cases, or Sraiw, by a test its own encoding fails |
| CodeBuffers.AllocatorSafe | src/vm/jit/CodeBuffer.cpp:18-36 | over any sequence of insert and insert_standalone calls all regions returned are 16-byte aligned, nonzero, in bounds and pairwise disjoint, and hold at the end what was first put there |
| CodeBuffers.AllocateLays | src/vm/jit/CodeBuffer.cpp:18-30 | one allocation adds a region after all others and keeps the contents of those |
| CodeBuffers.InsertIs | src/vm/jit/CodeBuffer.cpp:56-76 | insert gives the address already published, or a new region published for that address and no other |
| CodeBuffers.EntriesStay | src/vm/jit/CodeBuffer.cpp:56-76 | an entry that is set never changes |
| CodeBuffers.CodeBuffer.constructor | src/vm/jit/CodeBuffer.cpp:32-36 | a table of zeros with an entry for each block, and a free offset of 16 |
| CodeBuffers.CodeBuffer.Get | src/vm/jit/CodeBuffer.cpp:45-54 | the offset of a block, absent for a misaligned address or an entry of zero |
| CodeBuffers.CodeBuffer.AllocateExecutableMemory | src/vm/jit/CodeBuffer.cpp:18-30 | copies code to the next aligned offset; None, with nothing changed, when it does not fit |
| CodeBuffers.CodeBuffer.Insert | src/vm/jit/CodeBuffer.cpp:56-76 | rechecks, allocates and publishes |
| CodeBuffers.CodeBuffer.InsertStandalone | src/vm/jit/CodeBuffer.cpp:78-82 | allocates without publishing |
| Publication.PublicationSafe | src/vm/jit/CodeBuffer.cpp:45-76 | after any interleaving of lookups, branches through the table, inserts and standalone inserts, by any number of threads in a multithreaded buffer or one thread in any, that see stores late and in any order but for release and acquire, where each branch reads the table with an instruction of the translated code the thread is in: a thread with an address for a block reads there all the code its entry was published with, now and ever after, the entry stays, and all that have an address for the block have the same |
| StaleReads.AcquireIsNeeded | src/vm/jit/aarch64/CodeGenerator.cpp:214-222 | and only then: in a buffer of at least 4096 bytes and two blocks that guarantee holds for every interleaving if and only if the buffer is multithreaded, so that translated code reads the table with acquire, or there is a single thread |
| StaleReads.PlainLoadsFail | src/vm/jit/aarch64/CodeGenerator.cpp:214-222 | the interleaving for the other half: real translated code of two blocks, in which a plain load of the table takes a second thread into code it cannot see yet |
| Publication.StandaloneSafe | src/vm/jit/CodeBuffer.cpp:78-82 | a region insert_standalone has returned is aligned, nonzero and in bounds, and the thread it was returned to reads its code there from then on, whatever other threads insert |
| Publication.ReadersFindOwnCode | src/vm/jit/CodeBuffer.cpp:45-76 | the words a thread reads there are those of the translation of the very block it looked up |
| Publication.StepKeeps | src/vm/jit/CodeBuffer.cpp:45-76 | every step of every thread, stores becoming visible in any order included, keeps the invariant, every entry that is set, every word in use and all that threads have seen |
| Publication.MutualExclusion | src/vm/jit/CodeBuffer.cpp:59-66 | at most one thread is between taking the mutex and releasing it |
| Trampolines.TrampolineMeaning | src/vm/jit/aarch64/Trampoline.cpp:93-136 | code is called with every field of the block in the register it expects it in; after any body with a balanced stack, reason and pc are in the block, callee-saved registers, return address and stack pointer are as before, and every other register is as the body left it |
| NativeCalls.NativeCall | src/vm/jit/aarch64/Trampoline.cpp:93-137 | a whole call of translated code, over any number of blocks that jump to one another: the trampoline makes exactly the host state the Vm enters code in, and when the code comes back reason and pc are in its block, the stack is as it was and X18 to X30 hold what the caller had |
| NativeCalls.EveryCall | src/vm/jit/aarch64/Executor.cpp:39-76 | and so for every call of a run, whatever the caller then has in its registers |
| Trampolines.SaveRestore | src/vm/jit/aarch64/Trampoline.cpp:80-90 | save, any body with a balanced stack, restore: every saved register and the stack pointer come back, every other register is as the body left it |
| Trampolines.AddEachValid | src/vm/jit/aarch64/Trampoline.cpp:38-78 | over any sequence of add calls each register asked for is saved in exactly one place, and only the last pair may hold the filler |
| Trampolines.TrampolineSaves | src/vm/jit/aarch64/Trampoline.cpp:98-109 | saved are exactly the callee-saved registers, the return address and the block pointer, not the registers the exit comes back in |
| Trampolines.RegisterSaver.constructor | src/vm/jit/aarch64/Trampoline.cpp:33-36 | starts with the return address |
| Trampolines.RegisterSaver.AddAlwaysOne | src/vm/jit/aarch64/Trampoline.cpp:38-56 | joins the last pair while its second place is a filler; false for a reserved register |
| Trampolines.RegisterSaver.AddIfCalleeSaved | src/vm/jit/aarch64/Trampoline.cpp:58-66 | adds callee-saved registers only |
| Trampolines.RegisterSaver.Save | src/vm/jit/aarch64/Trampoline.cpp:80-84 | pushes the pairs in order |
| Trampolines.RegisterSaver.Restore | src/vm/jit/aarch64/Trampoline.cpp:86-90 | pops the pairs in reverse order |
| Trampolines.GenerateTrampoline | src/vm/jit/aarch64/Trampoline.cpp:93-137 | the two halves of the trampoline around the call |

## Left out

- The assembler library is not part of this model: host code is a sequence of a small instruction datatype, with labels as
  instructions that do nothing and take no room. Each other instruction takes one word of the code buffer, a move of an
  immediate from one to four; how many for which values is a parameter. Which immediates the assembler accepts for
  additions, logical operations and comparisons are parameters too; an accepted one is encoded correctly.
- The flags of the host are modelled by the operands of the last comparison, which is all the conditions used here read.
- `std::sort` may order slots of equal last use in any way; here the one with the lower index is ordered later. Which of them
  is evicted is therefore fixed in the model, while the theorems on eviction only speak of the last use, and
  `CacheTimes.LastUsedMayGo` gives one run in which that choice falls on the register locked last.
- The bit masks of requested registers are sets, and the population count is their size.
- CodeGeneration.CodeGenerator.PermissionMask: gives the mask for four bytes as 64 bits, as the source does; it is cut to 32
  bits by the instructions that use it.
- InterpreterObject.RunInterpreter: follows a given number of steps, because a guest need not end.
- VmObject.GuestVm.RunFor: follows a given number of trips, because a guest need not end; native code works on a copy of guest
  memory that is written back when it returns.
- Memories.Memory.SetPermissions: does not model a range whose end wraps past 2^64; address plus size is assumed not to.
- CodeBuffers.AllocatorSafe: offsets are returned as 32 bits, so the buffer is required to be below four gigabytes.
- Trampolines.TrampolineMeaning: assumes the trampoline block does not overlap the stack below the stack pointer.
- NativeCalls.NativeCall: within one run the model has the caller's registers the same at each call; `NativeCalls.EveryCall`
  lets them change from one call to the next. The flags at the call are any.
- Publication.PublicationSafe: reads of code are reads of memory in the model; that a processor fetches instructions through
  caches of its own, which the host flushes, is not part of it.
- The Mulh family is fatal in the interpreter; a run that meets one is fatal in both engines.
- Changes of permissions or of executable bytes by the host between runs; `insert` keeps translated code for good.
- Overflow of the signed difference in load_immediate, which only a base pc or immediate near 2^63 could cause.
- Running with permission checks switched off, beyond what `AccessMeaning.UncheckedMeaning` says of a single access.
- Single-step mode, the execution log and code dumps.
- The x64 code generator apart from its permission check.
- Executable memory mapping, instruction cache flushes, ELF loading, system calls, display, logging and `main`.
- Other threads storing to guest memory while a block is translated or run.
