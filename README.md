# Emulated computer: a Dafny model

This project models the core of a small emulated computer. It covers:

- the register file and its program status word (PSW);
- a 2000-word memory, with 300 words reserved for the operating system and a base/limit relocation window;
- the nine-entry interrupt table and its pending flags;
- the CPU's fetch, decode and execute cycle;
- the DMA controller that moves words between the disk and memory;
- the hard disk of 10 tracks × 10 cylinders × 100 sectors;
- the console's command parser and mode.

A machine word is the 8-character decimal string the program stores: a sign digit (`0` or `1`) and seven magnitude digits.

The model has two layers:

- **Pure specifications.** Modules `Words`, `CInt`, `Registers`, `Memory`, `Interrupts`, `Cpu` and `Dma` give each C routine as a function on a `State` value. A `State` holds the registers, the memory, the pending flags, the CPU state and the DMA control block. Lemmas about these functions state what the routines promise.
- **Imperative classes.** `Emulator.Machine` holds the C globals: `cpu_registers`, `memory[]`, `pending_interrupts[]`, `cpu_state` and `dma`. Its methods update these fields in place, and each method is proved to leave `View() == Spec(old(View()), …)`. `Disk.HardDisk` keeps its sectors in a three-dimensional array. `Console.Console` keeps the console mode and the debugger's step counter, and its parser follows the C routine step by step:
  - it copies the line into a buffer and lowercases it in place;
  - it cuts the line at the line feed;
  - it walks the tokens with strtok;
  - it fills the command record field by field.

C behaviour that Dafny's operators do not match is modelled explicitly:

- C integer division truncates toward zero (`CInt.CDiv`/`CMod`).
- `tst` ANDs 32-bit two's-complement values (`CInt.BitAnd32`).
- `atoi` skips white space, reads an optional sign and then the longest digit prefix (`Words.Atoi`).

A few behaviours of the code are worth stating on their own:

- A division by zero leaves 0 in AC and raises no interrupt.
- `dma_start_transfer` on a busy controller changes nothing, not even the status.
- The arithmetic group's subtraction overflow test in `CPU/cpu.c` line 143 fires on every subtraction of a negative operand. The machine the model executes uses the corrected test; both are stated (see "## Findings").

## Model

| member | source | states |
|---|---|---|
| Words.WordToInt | REGISTERS/registers.c:116-140 | a word whose length is not 8 reads as 0; every result lies within ±9999999 |
| Words.IntToWord | REGISTERS/registers.c:142-166 | the result always has 8 characters |
| Words.IntToWordInRange | REGISTERS/registers.c:144-163 | within ±9999999 the word is the sign digit followed by the zero-padded magnitude |
| Words.IntToWordOverflow | REGISTERS/registers.c:150-154 | beyond ±9999999 the word is "OVERFLOW", which reads back as 0 |
| Words.RoundTrip | REGISTERS/registers.c:116-166 | word_to_int(int_to_word(v)) == v for every v within ±9999999 |
| Words.WordRoundTrip | REGISTERS/registers.c:116-166 | int_to_word(word_to_int(w)) == w for every canonical word (sign 0/1, seven digits, not a negative zero) |
| Words.IntToWordCanonical | REGISTERS/registers.c:142-166 | int_to_word of an in-range value is canonical |
| Words.ZeroWordIsZero | MEMORY/memory.c:12-13 | "00000000" is int_to_word(0) and reads as 0 |
| Words.AtoiBound | CONSOLE/console.c:113-115 | atoi of an n-character string is below 10^n in magnitude |
| Words.AtoiOfDigits | CONSOLE/console.c:113-115 | atoi of a digit string is its decimal value |
| Words.AtoiOfDigitsThen | CONSOLE/console.c:113-115 | atoi stops at the first non-digit |
| CInt.CDivSpec | CPU/cpu.c:135 | C division and remainder: a == b*q + r, the remainder is smaller than b in magnitude and takes the sign of a |
| CInt.CDivExact | CPU/cpu.c:144 | (b*q)/b == q under truncating division |
| CInt.Wrap32 | CPU/cpu.c:132-134 | 32-bit wrap-around: in range, congruent to x modulo 2^32, and x itself when x fits |
| CInt.BitAnd32 | CPU/cpu.c:177 | the AND of two ints is again a 32-bit int |
| Registers.PswToWord | REGISTERS/registers.c:56-68 | the packed PSW word is canonical, non-negative, and its value is the packed fields (at most 16 bits) |
| Registers.PswRoundTrip | REGISTERS/registers.c:56-84 | word_to_psw(psw_to_word(p)) == p for every PSW |
| Registers.WordPswRoundTrip | REGISTERS/registers.c:56-84 | psw_to_word(word_to_psw(w)) == w for every canonical word of value 0..65535 |
| Registers.ClampPc | REGISTERS/registers.c:103-113 | the 10-bit PC field: 0 below 0, 1023 above 1023, the value otherwise |
| Registers.SetPCInt | REGISTERS/registers.c:103-113 | set_PC_int changes only PC and the PSW's pc field, which agree and hold the clamped value |
| Registers.SetPC | REGISTERS/registers.c:87-100 | set_PC stores the word unchanged, sets the pc field to its clamped value, and the two agree exactly when the value is in 0..1023 |
| Registers.UpdateConditionCode | REGISTERS/registers.c:168-177 | condition code 0 iff the result is 0, 1 iff it is negative, 2 iff it is positive; nothing else changes |
| Registers.InitialRegisters | REGISTERS/registers.c:9-30 | after init_registers: RL 1024, SP 1023; AC, MAR, MDR, IR, RB, RX and PC all "00000000"; the PSW in kernel mode with interrupts off, condition code 0 and pc field 0 |
| Memory.InitialMemory | MEMORY/memory.c:10-17 | init_memory leaves 2000 words, all "00000000" |
| Memory.LogicalToPhysical | MEMORY/memory.c:29-49 | logical_to_physical as a function of the state, returning the (possibly interrupted) state and the address; Memory.TranslationWindow and Memory.TranslationOnlyRaises state what it does |
| Memory.ReadMemory | MEMORY/memory.c:51-79 | read_memory never changes anything but the pending flags; Memory.ReadMemorySpec gives its result case by case |
| Memory.WriteMemory | MEMORY/memory.c:81-103 | write_memory never changes a register, the CPU state or the DMA block; Memory.WriteMemorySpec gives its effect on memory |
| Memory.TranslationWindow | MEMORY/memory.c:29-49 | with RB = RL = 0 addresses map to themselves; otherwise an address passes iff 0 <= a < RL, maps to a + RB, and a failure raises invalid-address and gives -1 |
| Memory.TranslationOnlyRaises | MEMORY/memory.c:29-49 | translating an address changes nothing but the pending flags |
| Memory.ReadMemorySpec | MEMORY/memory.c:51-79 | an accessible read returns the stored word and changes nothing; a failed translation gives MEM_ERR, with the invalid-address interrupt when the relocation window rejects the address; a physical address past 1999 gives ADDR_ERR and changes nothing; a user-mode read of the reserved area gives PRIV_ERR and raises invalid-address |
| Memory.WriteMemorySpec | MEMORY/memory.c:81-103 | an accessible write replaces exactly that word; any other write changes nothing but the pending flags |
| Memory.ReadAndWriteRaiseAlike | MEMORY/memory.c:51-103 | a read and a write of the same address raise the same interrupts |
| Memory.ReservedAreaProtected | MEMORY/memory.c:70-74 | in user mode the first 300 physical words read as PRIV_ERR and cannot be written; with interrupts on the invalid-address interrupt is raised |
| Memory.ReadAfterWrite | MEMORY/memory.c:51-103 | reading an accessible address just written returns the word written |
| Memory.WriteLeavesOthers | MEMORY/memory.c:81-103 | a write does not change the word at any other physical address |
| Memory.AccessDependsOnWindow | MEMORY/memory.c:29-79 | whether and where an access lands depends only on RB, RL and the mode |
| Memory.IsValidAddress | MEMORY/memory.c:105-111 | valid iff 0 <= a < 2000 and either kernel mode or a >= 300 |
| Memory.ValidAddressAgreesWithRead | MEMORY/memory.c:51-111 | without relocation, is_valid_address is exactly the condition under which a read succeeds |
| Memory.SetMemoryRegion | MEMORY/memory.c:124-127 | set_memory_region as a function of the state; Memory.SetMemoryRegionReadsBack and Memory.MemoryRegionWindow state what it does |
| Memory.SetMemoryRegionReadsBack | MEMORY/memory.c:124-127 | set_memory_region changes only RB and RL, which read back as base and limit |
| Memory.MemoryRegionWindow | MEMORY/memory.c:29-49 | after set_memory_region(b, l) an address a translates to a + b when 0 <= a < l and to -1 otherwise |
| Memory.DumpMemory | MEMORY/memory.c:113-121 | the lines shown: the range clipped to memory, one (address, word) per address |
| Interrupts.RunHandler | INTERRUPTS/interrupts.c:10-52 | the syscall handler enters kernel mode, underflow and overflow set their condition codes, the others change no register |
| Interrupts.EffectiveCode | INTERRUPTS/interrupts.c:74-79 | a code outside 0..8 is redirected to invalid-interrupt |
| Interrupts.Trigger | INTERRUPTS/interrupts.c:74-88 | trigger_interrupt changes nothing but the pending flags; Interrupts.TriggerEffect states which flag |
| Interrupts.TriggerEffect | INTERRUPTS/interrupts.c:74-88 | with interrupts on, exactly the effective code's flag is set; with interrupts off nothing changes |
| Interrupts.TriggerSetsOnlyItsFlag | INTERRUPTS/interrupts.c:81-84 | after a trigger, flag j is set iff it was set before or j is the effective code |
| Interrupts.TriggerIdempotent | INTERRUPTS/interrupts.c:74-88 | triggering the same code twice is the same as triggering it once |
| Interrupts.TriggerCommutes | INTERRUPTS/interrupts.c:74-88 | two triggers in either order give the same state |
| Interrupts.Service | INTERRUPTS/interrupts.c:93-110 | one iteration of the servicing loop for a pending code: kernel mode, the handler, the flag cleared |
| Interrupts.DrainUpTo | INTERRUPTS/interrupts.c:90-112 | the first n iterations of the servicing loop never change memory, the CPU state or the DMA block |
| Interrupts.HandlePending | INTERRUPTS/interrupts.c:90-112 | handle_pending_interrupts as all nine iterations; the HandlePending lemmas below state what it does |
| Interrupts.DrainUpToClosedForm | INTERRUPTS/interrupts.c:90-112 | after the first n passes of the loop, flags below n are clear, the rest untouched, the mode is kernel iff some flag below n was set, and the condition code is the last handler's |
| Interrupts.HandlePendingClearsAll | INTERRUPTS/interrupts.c:90-112 | handle_pending_interrupts leaves no flag set |
| Interrupts.HandlePendingRegisters | INTERRUPTS/interrupts.c:90-112 | kernel mode iff some flag was set; condition code 3 if overflow was pending, else 7 for underflow, else unchanged; nothing else in the registers changes |
| Interrupts.HandlePendingIdle | INTERRUPTS/interrupts.c:90-112 | with nothing pending the call changes nothing |
| Interrupts.HandlePendingIdempotent | INTERRUPTS/interrupts.c:90-112 | a second call changes nothing |
| Cpu.EffectiveAddress | CPU/cpu.c:77-88 | direct and immediate use the value, indexed adds AC, any other mode gives -1 |
| Cpu.Decode | CPU/cpu.c:50-75 | a word that is not 8 characters decodes to the malformed instruction; otherwise the opcode has two digits and the value five |
| Cpu.DecodeEncode | CPU/cpu.c:50-75 | decoding the word "opcode, mode, value" gives back those fields and their effective address |
| Cpu.EncodeDecode | CPU/cpu.c:50-75 | every 8-digit word is the encoding of its decoded fields |
| Cpu.DecodeDigits | CPU/cpu.c:60-70 | the opcode is digits 0-1, the mode digit 2, the value digits 3-7 |
| Cpu.Fetch | CPU/cpu.c:32-48 | fetch_instruction as a function of the state; Cpu.FetchSpec states what it does |
| Cpu.FetchSpec | CPU/cpu.c:32-48 | fetch sets MAR to the PC, MDR and IR to the word read, advances the PC modulo 1024, changes no memory and decodes IR |
| Cpu.FetchOperand | CPU/cpu.c:126-128 | an immediate operand is the value; any other is the word read at the effective address |
| Cpu.ArithmeticResult | CPU/cpu.c:131-136 | the C int result of sum, res, mult and divi, the product wrapped at 32 bits and a zero divisor giving 0; Cpu.ArithmeticWithFields states its use |
| Cpu.OverflowDetected | CPU/cpu.c:142-144 | the overflow test as the code writes it; Cpu.OverflowTests states what it flags |
| Cpu.OverflowCorrected | CPU/cpu.c:142-144 | the overflow test with the subtraction comparison corrected; Cpu.OverflowTests states what it flags |
| Cpu.OverflowTests | CPU/cpu.c:142-144 | the corrected test flags exactly the products that leave 32 bits; the test as written flags those and every subtraction of a negative operand |
| Cpu.ArithmeticWith | CPU/cpu.c:121-149 | the arithmetic group under either overflow test never changes memory, the CPU state or the DMA block |
| Cpu.Arithmetic | CPU/cpu.c:121-149 | the arithmetic group as the machine runs it, under the corrected test; never changes memory, the CPU state or the DMA block |
| Cpu.ArithmeticWithFields | CPU/cpu.c:121-149 | under either test: AC becomes the result word, the condition code follows the result's sign or is 3 with the overflow interrupt when the test fires; only AC, the condition code and the pending flags change |
| Cpu.ArithmeticFields | CPU/cpu.c:121-149 | the same for the corrected test alone: the overflow code and interrupt come exactly when a multiplication leaves 32 bits |
| Cpu.ArithmeticSpec | CPU/cpu.c:121-148 | under the corrected subtraction test: AC becomes the result word, reading back as the result when it fits; the condition code follows the result's sign, or is 3 with the overflow interrupt exactly when a multiplication leaves 32 bits; only AC, the condition code and the pending flags change |
| Cpu.DivisionByZero | CPU/cpu.c:135 | dividing by 0 leaves 0 in AC, condition code 0 and no new interrupt |
| Cpu.MultOverflowIff | CPU/cpu.c:142-146 | the multiplication check fires iff AC is non-zero and the product leaves 32 bits |
| Cpu.MultOverflowPossible | CPU/cpu.c:144 | 100000 * 100000 triggers the multiplication check |
| Cpu.LoadStore | CPU/cpu.c:152-162 | load and str never change the CPU state or the DMA block |
| Cpu.Compare | CPU/cpu.c:165-183 | cmp, tst and mov never change the CPU state or the DMA block |
| Cpu.CompareSpec | CPU/cpu.c:164-183 | cmp sets 0/1/2 as AC is equal to, below or above the operand; tst sets the code by the AND; mov copies the operand into AC; nothing else changes |
| Cpu.CompareThenJump | CPU/cpu.c:164-206 | after cmp, jeq/jgt/jlt jump iff AC was equal to, greater than or less than the operand |
| Cpu.ControlTransfer | CPU/cpu.c:186-239 | the jumps, svc, call, ret and the unconditional j of line 273 never change the CPU state or the DMA block |
| Cpu.JumpSpec | CPU/cpu.c:186-206 | a taken jump sets the PC to the clamped target; an untaken one changes nothing; only PC and the pc field ever change |
| Cpu.JumpThenFetch | CPU/cpu.c:32-48 | the fetch after a taken jump to an address in 0..1023 reads that address |
| Cpu.RegisterOp | CPU/cpu.c:242-270 | the register moves, push and pop never change the CPU state or the DMA block |
| Cpu.DeviceOp | CPU/cpu.c:279-315 | the DMA and I/O opcodes never change the CPU state |
| Cpu.SystemOp | CPU/cpu.c:318-342 | halt, nop, ei, di and the mode switches never change memory, the pending flags or the DMA block |
| Cpu.Execute | CPU/cpu.c:110-349 | execute_instruction's switch as a function of the state; the Spec lemmas of the Cpu module state each case |
| Cpu.Cycle | CPU/cpu.c:90-96 | cpu_cycle as a function; Cpu.StoppedCpuStaysPut and Cpu.CycleHalts state what it does |
| Cpu.Run | CPU/cpu.c:366-369 | the while loop of execute_program as at most `fuel` cycles; Cpu.RunSplit and Cpu.RunStopped state what it does |
| Cpu.ExecuteProgram | CPU/cpu.c:359-372 | execute_program within the fuel; Cpu.ExecuteProgramOutcome states what it does |
| Cpu.PushSpec | CPU/cpu.c:256-262 | push stores AC at SP and decrements SP |
| Cpu.PushThenPop | CPU/cpu.c:256-270 | pop after push restores every register, AC included |
| Cpu.CallSpec | CPU/cpu.c:213-225 | call stores the return PC at SP, decrements SP and jumps |
| Cpu.CallThenReturn | CPU/cpu.c:213-239 | ret after call restores SP, the PSW and the PC |
| Cpu.UnimplementedOpcode | CPU/cpu.c:344-347 | an unknown opcode only raises invalid-instruction |
| Cpu.MalformedWordTraps | CPU/cpu.c:55-58 | a word that is not 8 characters executes as invalid-instruction |
| Cpu.DmaConfigLocation | CPU/cpu.c:299-302 | dma_config splits its value into track, cylinder and sector and stores them when in range |
| Cpu.ExecuteCpuState | CPU/cpu.c:318-319 | only halt changes the CPU state, to halted |
| Cpu.StoppedCpuStaysPut | CPU/cpu.c:90-96 | a cycle of a stopped CPU does nothing |
| Cpu.CycleHalts | CPU/cpu.c:90-96 | a cycle halts iff it fetched halt, and leaves no interrupt pending |
| Cpu.RunSplit | CPU/cpu.c:359-372 | running a+b cycles is running a then b |
| Cpu.RunStopped | CPU/cpu.c:359-372 | once stopped, more cycles change nothing |
| Cpu.ExecuteProgramOutcome | CPU/cpu.c:359-372 | execute_program starts running at the clamped address and ends running or halted |
| Cpu.SubtractionOverflowAsWritten | CPU/cpu.c:143 | as written, every subtraction of a negative operand counts as an overflow |
| Cpu.OperandFromMemory | CPU/cpu.c:127-128 | an operand read from an accessible address is the stored word's value and changes nothing |
| Cpu.MinusFiveWord | REGISTERS/registers.c:116-166 | -5 is written "10000005" and that word reads back as -5 |
| Cpu.SubtractMinusFive | CPU/cpu.c:142-146 | subtracting -5 from AC 0: as written sets condition code 3 and raises overflow; corrected gives 5 with code 2 and no interrupt |
| Cpu.SubtractionOverflowExample | CPU/cpu.c:142-146 | SUB from AC 0 of a memory word holding "10000005" (which SUB of the literal 5 and STR leave behind): as written sets condition code 3 and raises overflow; corrected gives 5 with code 2 and no interrupt |
| Cpu.AddSubNeverOverflow | CPU/cpu.c:142-146 | with unbounded arithmetic the corrected test never fires for add or subtract |
| Dma.InitDma | DMA/dma.c:124-137 | init_dma: idle, status 0, one sector, a valid block |
| Dma.SetMemoryAddress | DMA/dma.c:139-146 | only an address in 0..1999 is stored; nothing else changes |
| Dma.SetDiskLocation | DMA/dma.c:148-161 | the location is stored only when all three coordinates are in range |
| Dma.SetIoOperation | DMA/dma.c:163-170 | only 0 or 1 is stored |
| Dma.SetTransferSize | DMA/dma.c:172-179 | only a positive size is stored |
| Dma.SettersKeepState | DMA/dma.c:139-179 | no setter changes state or status |
| Dma.ConfigurationInvariant | DMA/dma.c:124-179 | init and every setter keep the control block valid with an address in memory |
| Dma.DiskReadWord | DMA/dma.c:22-37 | the simulated disk word is "T tt C cc S s" |
| Dma.DiskReadWordValue | DMA/dma.c:22-37 | that word reads back as the track number |
| Dma.TransferStep | DMA/dma.c:61-101 | one pass of the transfer loop never changes a register, the CPU state or the DMA block; Dma.ReadPass and Dma.WritePass state its effect |
| Dma.ReadPass | DMA/dma.c:61-81 | a read pass writes the disk word to memoryAddress + i |
| Dma.WritePass | DMA/dma.c:83-101 | a write pass only reads memory |
| Dma.TransferLoop | DMA/dma.c:60-106 | the loop from pass i never changes a register or the CPU state, and leaves the DMA block as it was or marks it in error with status 1 |
| Dma.Transfer | DMA/dma.c:51-122 | transfer_thread never changes a register or the CPU state |
| Dma.StartTransfer | DMA/dma.c:181-207 | dma_start_transfer never changes a register or the CPU state; Dma.StartTransferOutcome states its outcome |
| Dma.TransferLoopOutcome | DMA/dma.c:60-106 | the loop fails, with error state and status 1, iff the transfer runs past memory |
| Dma.StartTransferOutcome | DMA/dma.c:181-207 | a busy controller is left alone; otherwise the status is 1 and the state error iff the range runs past memory, and idle with status 0 otherwise |
| Dma.StartTransferSettles | DMA/dma.c:51-122 | a synchronous transfer ends idle or in error |
| Dma.ErrorIsSticky | DMA/dma.c:182-185 | a controller in error ignores start |
| Dma.StartTransferSignalsCompletion | DMA/dma.c:119 | a started transfer raises I/O completion when interrupts are on |
| Dma.StartWriteTransferKeepsMemory | DMA/dma.c:83-101 | a memory-to-disk transfer never changes memory |
| Dma.ReadLoopFills | DMA/dma.c:60-106 | without relocation in kernel mode, the read loop fills its range with the disk words and leaves the rest |
| Dma.StartReadTransferFills | DMA/dma.c:181-207 | a disk-to-memory start fills the target range with the disk words of successive sectors |
| Disk.IndexCompose | DISK/disk.c:8-25 | every flat index is the index of its coordinates |
| Disk.IndexDecompose | DISK/disk.c:27-59 | distinct coordinates never share a sector |
| Disk.InitialDisk | DISK/disk.c:8-25 | init_disk as a value; Disk.InitialDiskEmpty states it |
| Disk.Read | DISK/disk.c:27-40 | read_sector as a function of the disk; Disk.ReadOutOfRange and Disk.ReadAfterWrite state what it returns |
| Disk.Write | DISK/disk.c:42-59 | write_sector as a function of the disk; Disk.WriteOutOfRange and Disk.WriteOnlyAddressed state what it changes |
| Disk.Format | DISK/disk.c:74-82 | format_disk as a function of the disk; Disk.FormatClears states it |
| Disk.ReadOutOfRange | DISK/disk.c:28-34 | a read outside the geometry returns "ERROR" |
| Disk.WriteOutOfRange | DISK/disk.c:43-49 | a write outside the geometry changes nothing |
| Disk.ReadAfterWrite | DISK/disk.c:27-59 | reading a sector just written returns the data |
| Disk.WriteOnlyAddressed | DISK/disk.c:42-59 | a write changes only its sector and never the heads |
| Disk.FormatClears | DISK/disk.c:74-82 | after format every sector is "00000000" and the heads are unchanged |
| Disk.InitialDiskEmpty | DISK/disk.c:8-25 | after init the heads are at 0 and every sector is "00000000" |
| Disk.HardDisk.ClearSectors | DISK/disk.c:14-21 | the triple loop leaves every sector "00000000" |
| Disk.HardDisk.InitDisk | DISK/disk.c:8-25 | the disk becomes the initial disk |
| Disk.HardDisk.FormatDisk | DISK/disk.c:74-82 | the disk becomes its formatted value |
| Disk.HardDisk.ReadSector | DISK/disk.c:27-40 | returns Read of the disk's value |
| Disk.HardDisk.WriteSector | DISK/disk.c:42-59 | the disk becomes Write of its old value |
| Emulator.BootState | CPU/cpu.c:21-25 | initial registers, CPU running, DMA freshly initialised, memory zeroed, nothing pending |
| Emulator.Machine.constructor | CPU/cpu.c:21-25 | a fresh machine is the boot state |
| Emulator.Machine.InitRegisters | REGISTERS/registers.c:9-30 | only the registers change, to their initial values |
| Emulator.Machine.InitMemory | MEMORY/memory.c:10-17 | only memory changes, to all zero words |
| Emulator.Machine.LogicalToPhysical | MEMORY/memory.c:29-49 | the address and new state agree with the translation function |
| Emulator.Machine.ReadMemory | MEMORY/memory.c:51-79 | the word and the pending flags agree with the read function |
| Emulator.Machine.WriteMemory | MEMORY/memory.c:81-103 | the new state is the write function's |
| Emulator.Machine.SetMemoryRegion | MEMORY/memory.c:124-127 | the new state is set_memory_region's |
| Emulator.Machine.InitInterrupts | INTERRUPTS/interrupts.c:54-72 | only the pending flags change, to all clear |
| Emulator.Machine.TriggerInterrupt | INTERRUPTS/interrupts.c:74-88 | the new state is the trigger function's |
| Emulator.Machine.HandlePendingInterrupts | INTERRUPTS/interrupts.c:90-112 | the loop's final state is the handler function's |
| Emulator.Machine.InitDma | DMA/dma.c:124-137 | only the DMA block changes, to its initial value |
| Emulator.Machine.DmaSetMemoryAddress | DMA/dma.c:139-146 | only the DMA block changes, by the setter |
| Emulator.Machine.DmaSetDiskLocation | DMA/dma.c:148-161 | only the DMA block changes, by the setter |
| Emulator.Machine.DmaSetIoOperation | DMA/dma.c:163-170 | only the DMA block changes, by the setter |
| Emulator.Machine.DmaSetTransferSize | DMA/dma.c:172-179 | only the DMA block changes, by the setter |
| Emulator.Machine.TransferPass | DMA/dma.c:61-101 | one pass of the transfer loop, as the step function gives |
| Emulator.Machine.DiskReadPass | DMA/dma.c:61-81 | a disk-read pass writes memory as the step function gives |
| Emulator.Machine.DiskWritePass | DMA/dma.c:83-101 | a disk-write pass only reads memory, as the step function gives |
| Emulator.Machine.RunTransferLoop | DMA/dma.c:60-106 | the loop's final state is the loop function's |
| Emulator.Machine.TransferThread | DMA/dma.c:51-122 | the thread body's final state is the transfer function's |
| Emulator.Machine.DmaStartTransfer | DMA/dma.c:181-207 | the new state is the start function's |
| Emulator.Machine.DmaWaitCompletion | DMA/dma.c:209-217 | with the transfer synchronous, waiting changes nothing |
| Emulator.Machine.DmaGetStatus | DMA/dma.c:219-221 | returns the status |
| Emulator.Machine.DmaGetState | DMA/dma.c:223-225 | returns the state |
| Emulator.Machine.InitCpu | CPU/cpu.c:21-30 | the registers are reset and the CPU runs |
| Emulator.Machine.SetCpuState | CPU/cpu.c:351-353 | only the CPU state changes |
| Emulator.Machine.GetCpuState | CPU/cpu.c:355-357 | returns the CPU state |
| Emulator.Machine.ReadInstructionWord | CPU/cpu.c:36-38 | MAR takes the PC; the word and the pending flags are those of the read at the PC; nothing else changes |
| Emulator.Machine.AdvancePC | CPU/cpu.c:40-41 | the PC and the PSW's pc field both become the old pc field plus one, modulo 1024 |
| Emulator.Machine.FetchInstruction | CPU/cpu.c:32-48 | the instruction and new state are the fetch function's |
| Emulator.Machine.Operand | CPU/cpu.c:127-128 | the value and the new state are the operand fetch's |
| Emulator.Machine.ArithmeticOp | CPU/cpu.c:121-149 | the new state is the arithmetic group's under the corrected test |
| Emulator.Machine.LoadStoreOp | CPU/cpu.c:152-162 | the new state is load's or str's |
| Emulator.Machine.CompareOp | CPU/cpu.c:165-183 | the new state is cmp's, tst's or mov's |
| Emulator.Machine.CallOp | CPU/cpu.c:213-225 | the new state is call's |
| Emulator.Machine.ReturnOp | CPU/cpu.c:228-239 | the new state is ret's |
| Emulator.Machine.PushOp | CPU/cpu.c:256-262 | the new state is push's |
| Emulator.Machine.PopOp | CPU/cpu.c:264-270 | the new state is pop's |
| Emulator.Machine.ControlTransferOp | CPU/cpu.c:186-239 | the new state is that of the jumps, svc, call, ret and j |
| Emulator.Machine.RegisterOpMethod | CPU/cpu.c:242-270 | the new state is that of the register moves, push and pop |
| Emulator.Machine.DeviceOpMethod | CPU/cpu.c:279-315 | the new state is that of the DMA and I/O opcodes |
| Emulator.Machine.SystemOpMethod | CPU/cpu.c:318-342 | the new state is that of halt, nop, ei, di and the mode switches |
| Emulator.Machine.ExecuteInstruction | CPU/cpu.c:110-349 | the new state is the execute function's (corrected subtraction test) |
| Emulator.Machine.CpuCycle | CPU/cpu.c:90-96 | the new state is the cycle function's (corrected subtraction test) |
| Emulator.Machine.ExecuteProgram | CPU/cpu.c:359-372 | the final state is execute_program's within the fuel |
| Console.LoweredBuffer | CONSOLE/console.c:66-73 | the buffer left by the lowering loop holds the input up to its line feed, lowercased |
| Console.NormalizeLower | CONSOLE/console.c:70-73 | lowercasing the input first changes nothing |
| Console.NormalizeClean | CONSOLE/console.c:70-73 | the tokenized line has no capitals, line feed or terminator |
| Console.NextToken | CONSOLE/console.c:76 | the position strtok resumes from stays within the line |
| Console.TokenWalk | CONSOLE/console.c:76-122 | the strtok calls return the line's space/tab-separated tokens in order, and none is returned exactly when none is left |
| Console.TokensWellFormed | CONSOLE/console.c:76 | tokens are non-empty, delimiter-free and drawn from the line |
| Console.CommandOf | CONSOLE/console.c:83-133 | the if/else-if chain choosing the command from the first word; Console.CommandNames states which words select which command |
| Console.ParseTokens | CONSOLE/console.c:76-135 | the record built from the line's tokens; the Console lemmas below state its fields |
| Console.Parse | CONSOLE/console.c:58-136 | parse_command as a function of the input and the current mode; the Console lemmas below state its fields |
| Console.CommandNames | CONSOLE/console.c:83-133 | a word selects a command iff it is one of its names: s, c, reg/r, mem/m, d, ?/h and quit/q are the aliases |
| Console.NamesDisjoint | CONSOLE/console.c:83-133 | no name selects two commands |
| Console.Truncate | CONSOLE/console.c:87-88 | the stored file name is the token's prefix of at most 99 characters, all of it when it fits |
| Console.BlankLine | CONSOLE/console.c:59-80 | an empty or blank line gives the unknown command, -1 and -1, no file name and the current mode |
| Console.CaseInsensitive | CONSOLE/console.c:70-71 | a line parses as its lowercase version does |
| Console.UnknownWord | CONSOLE/console.c:59-64 | a first word naming no command gives the blank record |
| Console.FileNameRecorded | CONSOLE/console.c:83-127 | a file name is at most 99 lowercase characters, a prefix of the second token, set only for run, debug or load |
| Console.RunAndDebugMode | CONSOLE/console.c:83-100 | run and debug with a file set normal and debugger mode; without one the mode stays |
| Console.MemoryArguments | CONSOLE/console.c:110-116 | the memory bounds are atoi of the next two tokens, -1 when missing |
| Console.MemoryRange | CONSOLE/console.c:225-232 | the range the memory command shows; Console.MemoryWithoutArguments, Console.MemoryFromAddress and Console.MinusOneMeansDefault state it |
| Console.MemoryWithoutArguments | CONSOLE/console.c:225-227 | the memory command alone shows words 300..320 |
| Console.MemoryFromAddress | CONSOLE/console.c:228-229 | with one start a, 21 words from a are shown |
| Console.MinusOneMeansDefault | CONSOLE/console.c:226 | a first bound of -1 is taken as absent, so the default range is shown |
| Console.CommandEffect | CONSOLE/console.c:164-208 | what execute_command does to the mode and the step counter; Console.CommandEffectFrame and the replay lemmas state it |
| Console.CommandEffectFrame | CONSOLE/console.c:164-256 | only run, debug and continue change the mode; only debug and a step in the debugger with the CPU running change the count; every other command leaves both alone |
| Console.StepsAdd | CONSOLE/console.c:192-199 | in the debugger with the CPU running, k step commands add k to the count |
| Console.DebugThenSteps | CONSOLE/console.c:177-199 | debug then k steps, the CPU running, leaves debugger mode with the count at k, from any console state |
| Console.IdleStepsCountNothing | CONSOLE/console.c:192-202 | steps in normal mode, or with the CPU stopped, change nothing |
| Console.LowerLine | CONSOLE/console.c:66-73 | the in-place lowering loop leaves the normalised line in the buffer |
| Console.ParseLine | CONSOLE/console.c:76-135 | the record filled from the strtok walk is the one the line's tokens describe |
| Console.Console.constructor | CONSOLE/console.c:20 | the console starts in normal mode with step count 0 |
| Console.Console.GetCurrentMode | CONSOLE/console.c:318-320 | returns the mode |
| Console.Console.SetCurrentMode | CONSOLE/console.c:322-327 | sets the mode; entering debugger mode resets the step count, otherwise it is unchanged |
| Console.Console.ParseCommand | CONSOLE/console.c:58-136 | the record is the parse of the input in the current mode |
| Console.Console.ApplyCommand | CONSOLE/console.c:164-208 | the mode and the step counter become what execute_command leaves for the command |

## Left out

- The logger (`LOGGER/logger.c`) and every message it would print: the model writes no text.
- Printing and the console's read loop are not modelled. This covers the print loop of `dump_memory`, `disk_info`, `show_detailed_registers`, `dump_registers`, `debug_step`, `init_console`/`show_help`/`show_prompt` and the `fgets` loop of `run_console`. `Memory.DumpMemory` gives the lines the dump would show.
- `execute_command` is modelled only in its effect on the console itself: the mode and step-count assignments (`Console.CommandEffect`, `Console.Console.ApplyCommand`) and the memory case's range (`Console.MemoryRange`). Its calls into the machine are not: `load_program_file`, the `execute_program` of run, the start-up of debug (PC and CPU state), the `debug_step` of step and the cycle loop of continue, which are routines modelled on their own elsewhere or print.
- `load_program_file`: it ignores the file and stores a built-in sample program.
- `main.c`: it only calls the initialisers in order.
- The DMA thread and its bus lock run synchronously inside `dma_start_transfer`. Concurrent access to memory while a transfer runs, and the `pthread_create` failure branch, are not modelled.
- The `DMA_SLEEP` delay.
- `dma_bus_request`/`dma_bus_release`: they only log.
- The DMA's simulated disk is its own formula and never touches the hard disk. The disk-side effect of `dma_disk_write`, which only logs, is absent.
- `save_context`/`restore_context`: they are empty in the source.
- `cpu_cycle_step` and the `handle_*` wrappers of `cpu.c`: they are unused stubs.
- Emulator.Machine.ExecuteProgram: runs at most `fuel` cycles, because the source loop has no bound. No termination claim is made. Like the other members below, it runs the corrected subtraction overflow test.
- Cpu.Arithmetic: uses the corrected overflow test, not the one of `CPU/cpu.c` line 143. As written, every SUB of a negative operand also sets condition code 3 and raises the overflow interrupt. `Cpu.ArithmeticWith` with `asWritten` true is the code as written, and `Cpu.ArithmeticWithFields` states it field by field.
- Cpu.ArithmeticSpec: states the arithmetic group under the corrected test. It does not promise the extra overflow code and interrupt that line 143 gives every SUB of a negative operand; `Cpu.ArithmeticWithFields` states that case.
- Cpu.Execute, Cpu.Cycle, Cpu.Run and Cpu.ExecuteProgram: they execute `Cpu.Arithmetic`, so a SUB of a negative operand behaves as corrected, not as line 143 writes it.
- Emulator.Machine.ArithmeticOp: tests `Cpu.OverflowCorrected`, so it does not set condition code 3 or raise overflow on a SUB of a negative operand, as line 143 does.
- Emulator.Machine.ExecuteInstruction: proved equal to `Cpu.Execute`, so it inherits the corrected subtraction test.
- Emulator.Machine.CpuCycle: proved equal to `Cpu.Cycle`, so it inherits the corrected subtraction test.
- Memory.InitialMemory: the loop that copies "OS_RESERVED" over the first 300 words is left out. That string is 12 bytes long and overflows the 9-byte word, which C leaves undefined. The model zero-fills only.
- Signed 32-bit overflow in `+`, `-` and `*` is undefined in C. The model computes `+` and `-` with unbounded integers; on seven-digit operands they cannot leave the `int` range. The product is wrapped at 32 bits with `CInt.Wrap32`, as a two's-complement machine gives it, and the overflow test sees the wrapped product.
- `tst` on negative values uses 32-bit two's-complement AND. C implementations agree on this, but the model fixes it.
- Console.ParseCommand: an input longer than 199 characters overflows the 200-byte buffer in C. The model keeps the whole line.
- Console.MemoryArguments: `atoi` of a number outside the `int` range is undefined in C. The model returns the exact value.
- Disk.HardDisk.WriteSector: strings longer than 9 characters overflow the 10-byte sector in C. The model stores the whole string.

## Findings

| source | as written | input that shows it | evidently intended | confidence | as-written member | corrected member |
|---|---|---|---|---|---|---|
| CPU/cpu.c:143 | the subtraction overflow clause tests `result > AC && operand < 0` | AC = 0 and SUB direct from a word holding "10000005" (what SUB of the literal 5 from AC 0 followed by STR leaves there): the result is 5, above AC, so the CPU sets condition code 3 and raises overflow | a wrap below AC (`result < AC`) for subtraction of a negative operand, which never happens for in-range values | not executed | Cpu.SubtractionOverflowAsWritten | Cpu.AddSubNeverOverflow |
