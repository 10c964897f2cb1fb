/** The emulated machine in mutable form: the register file, the 2000-word memory, the
    nine pending-interrupt flags, the CPU run state and the DMA control block, updated in
    place by the operations of the memory unit, the interrupt controller, the DMA
    controller and the CPU. Every method is proved to act on the machine exactly as the
    specification function of the same operation acts on its value (`View`). */
module Emulator {
  import opened CInt
  import opened Words
  import opened Registers
  import opened MachineState
  import opened Interrupts
  import opened Memory
  import opened Dma
  import opened Cpu

  /** The machine main leaves behind after init_memory, init_registers, init_interrupts,
      init_dma and init_cpu. */
  function BootState(): (s: State)
    ensures s.regs == InitialRegisters() && s.cpu == Running && s.dma == InitDma()
    ensures forall i :: 0 <= i < MEMORY_SIZE ==> s.memory[i] == ZERO_WORD
    ensures forall i :: 0 <= i < INTERRUPT_COUNT ==> !s.pending[i]
  {
    Snapshot(InitialRegisters(), InitialMemory(), NoPending(), Running, InitDma())
  }

  class Machine {
    var regs: Registers
    const memory: array<Word>
    const pending: array<bool>
    var cpu: CpuState
    var dma: DmaControl

    ghost predicate Valid()
      reads this
    {
      memory.Length == MEMORY_SIZE && pending.Length == INTERRUPT_COUNT && DmaValid(dma)
    }

    /** The machine as a value. */
    ghost function View(): State
      reads this, memory, pending
      requires Valid()
    {
      Snapshot(regs, memory[..], pending[..], cpu, dma)
    }

    /** Bring-up in the order of main. */
    constructor ()
      ensures Valid() && fresh(memory) && fresh(pending)
      ensures View() == BootState()
    {
      regs := InitialRegisters();
      memory := new Word[MEMORY_SIZE](_ => ZERO_WORD);
      pending := new bool[INTERRUPT_COUNT](_ => false);
      cpu := Halted;
      dma := Dma.InitDma();
      new;
      InitMemory();
      InitRegisters();
      InitInterrupts();
      InitDma();
      InitCpu();
      assert memory[..] == InitialMemory() && pending[..] == NoPending();
    }

    // -------------------------------------------------------------------------------
    // Registers

    /** init_registers */
    method InitRegisters()
      requires Valid()
      modifies this
      ensures Valid() && View() == old(View()).(regs := InitialRegisters())
    {
      regs := InitialRegisters();
    }

    // -------------------------------------------------------------------------------
    // Memory

    /** The zero-filling loop of init_memory. */
    method InitMemory()
      requires Valid()
      modifies memory
      ensures Valid() && View() == old(View()).(memory := InitialMemory())
    {
      for i := 0 to MEMORY_SIZE
        invariant forall j :: 0 <= j < i ==> memory[j] == ZERO_WORD
      {
        memory[i] := ZERO_WORD;
      }
      assert memory[..] == InitialMemory();
    }

    /** logical_to_physical */
    method LogicalToPhysical(logical: int) returns (physical: int)
      requires Valid()
      modifies pending
      ensures Valid() && Memory.LogicalToPhysical(old(View()), logical) == Translation(View(), physical)
    {
      var rb := WordToInt(regs.RB);
      var rl := WordToInt(regs.RL);
      if rb == 0 && rl == 0 {
        return logical;
      }
      physical := logical + rb;
      if physical < rb || physical >= rb + rl {
        TriggerInterrupt(INT_INVALID_ADDRESS);
        return -1;
      }
    }

    /** read_memory */
    method ReadMemory(logical: int) returns (w: Word)
      requires Valid()
      modifies pending
      ensures Valid()
      ensures w == Memory.ReadMemory(old(View()), logical).word
      ensures pending[..] == Memory.ReadMemory(old(View()), logical).state.pending
    {
      var physical := LogicalToPhysical(logical);
      if physical < 0 {
        return MEM_ERR;
      }
      if physical >= MEMORY_SIZE {
        return ADDR_ERR;
      }
      if physical < OS_RESERVED && regs.psw.operationMode == USER_MODE {
        TriggerInterrupt(INT_INVALID_ADDRESS);
        return PRIV_ERR;
      }
      w := memory[physical];
    }

    /** write_memory */
    method WriteMemory(logical: int, w: Word)
      requires Valid()
      modifies memory, pending
      ensures Valid() && View() == Memory.WriteMemory(old(View()), logical, w)
    {
      var physical := LogicalToPhysical(logical);
      if physical < 0 || physical >= MEMORY_SIZE {
        return;
      }
      if physical < OS_RESERVED && regs.psw.operationMode == USER_MODE {
        TriggerInterrupt(INT_INVALID_ADDRESS);
        return;
      }
      memory[physical] := w;
    }

    /** set_memory_region */
    method SetMemoryRegion(base: int, limit: int)
      requires Valid()
      modifies this
      ensures Valid() && View() == Memory.SetMemoryRegion(old(View()), base, limit)
    {
      regs := regs.(RB := IntToWord(base), RL := IntToWord(limit));
    }

    // -------------------------------------------------------------------------------
    // Interrupts

    /** The flag-clearing loop of init_interrupts; the vector itself is the constant VECTOR. */
    method InitInterrupts()
      requires Valid()
      modifies pending
      ensures Valid() && View() == old(View()).(pending := NoPending())
    {
      for i := 0 to INTERRUPT_COUNT
        invariant forall j :: 0 <= j < i ==> !pending[j]
      {
        pending[i] := false;
      }
      assert pending[..] == NoPending();
    }

    /** trigger_interrupt */
    method TriggerInterrupt(code: int)
      requires Valid()
      modifies pending
      ensures Valid() && View() == Interrupts.Trigger(old(View()), code)
      decreases if 0 <= code < INTERRUPT_COUNT then 0 else 1
    {
      if code < 0 || code > 8 {
        TriggerInterrupt(INT_INVALID_INTERRUPT);
        return;
      }
      if regs.psw.interruptEnabled == 1 {
        pending[code] := true;
      }
    }

    /** handle_pending_interrupts */
    method HandlePendingInterrupts()
      requires Valid()
      modifies this, pending
      ensures Valid() && View() == HandlePending(old(View()))
    {
      for i := 0 to INTERRUPT_COUNT
        invariant Valid() && View() == DrainUpTo(old(View()), i)
      {
        if pending[i] {
          regs := regs.(psw := regs.psw.(operationMode := KERNEL_MODE));
          regs := RunHandler(VECTOR[i], regs);
          pending[i] := false;
        }
      }
    }

    // -------------------------------------------------------------------------------
    // DMA

    /** init_dma */
    method InitDma()
      requires Valid()
      modifies this
      ensures Valid() && View() == old(View()).(dma := Dma.InitDma())
    {
      dma := DmaControl(0, 0, 0, 0, DMA_READ, 1, DmaIdle, 0);
    }

    /** dma_set_memory_address */
    method DmaSetMemoryAddress(address: int)
      requires Valid()
      modifies this
      ensures Valid() && View() == old(View()).(dma := Dma.SetMemoryAddress(old(dma), address))
    {
      if address < 0 || address >= MEMORY_SIZE {
        return;
      }
      dma := dma.(memoryAddress := address);
    }

    /** dma_set_disk_location */
    method DmaSetDiskLocation(track: int, cylinder: int, sector: int)
      requires Valid()
      modifies this
      ensures Valid() && View() == old(View()).(dma := Dma.SetDiskLocation(old(dma), track, cylinder, sector))
    {
      if track < 0 || track >= TRACKS || cylinder < 0 || cylinder >= CYLINDERS
         || sector < 0 || sector >= SECTORS_PER_CYLINDER {
        return;
      }
      dma := dma.(diskTrack := track, diskCylinder := cylinder, diskSector := sector);
    }

    /** dma_set_io_operation */
    method DmaSetIoOperation(operation: int)
      requires Valid()
      modifies this
      ensures Valid() && View() == old(View()).(dma := Dma.SetIoOperation(old(dma), operation))
    {
      if operation != DMA_READ && operation != DMA_WRITE {
        return;
      }
      dma := dma.(ioOperation := operation);
    }

    /** dma_set_transfer_size */
    method DmaSetTransferSize(size: int)
      requires Valid()
      modifies this
      ensures Valid() && View() == old(View()).(dma := Dma.SetTransferSize(old(dma), size))
    {
      if size <= 0 {
        return;
      }
      dma := dma.(bytesToTransfer := size);
    }

    /** One pass of the loop of transfer_thread whose address is inside memory. */
    method TransferPass(i: nat)
      requires Valid()
      modifies memory, pending
      ensures Valid() && View() == TransferStep(old(View()), i)
    {
      if dma.ioOperation == DMA_READ {
        DiskReadPass(i);
      } else {
        DiskWritePass(i);
      }
    }

    /** A pass of a disk read: the disk's word is written to memory. */
    method DiskReadPass(i: nat)
      requires Valid() && dma.ioOperation == DMA_READ
      modifies memory, pending
      ensures Valid() && View() == TransferStep(old(View()), i)
    {
      ReadPass(View(), i);
      var data := DiskReadWord(dma.diskTrack, dma.diskCylinder, dma.diskSector + i);
      WriteMemory(dma.memoryAddress + i, data);
    }

    /** A pass of a disk write: the word is read from memory and goes nowhere. */
    method DiskWritePass(i: nat)
      requires Valid() && dma.ioOperation != DMA_READ
      modifies pending
      ensures Valid() && View() == TransferStep(old(View()), i)
    {
      WritePass(View(), i);
      ghost var s := View();
      var data := ReadMemory(dma.memoryAddress + i);
      assert pending[..] == Memory.ReadMemory(s, s.dma.memoryAddress + i).state.pending;
    }

    /** The copying loop of transfer_thread. */
    method RunTransferLoop()
      requires Valid()
      modifies this, memory, pending
      ensures Valid() && View() == TransferLoop(old(View()), 0)
    {
      ghost var start := View();
      var i := 0;
      while i < dma.bytesToTransfer
        invariant Valid() && 0 <= i <= dma.bytesToTransfer
        invariant dma == start.dma
        invariant TransferLoop(View(), i) == TransferLoop(start, 0)
        decreases dma.bytesToTransfer - i
      {
        if dma.memoryAddress + i >= MEMORY_SIZE {
          TransferLoopStops(View(), i);
          dma := dma.(state := DmaError, status := 1);
          return;
        }
        ghost var before := View();
        TransferPass(i);
        TransferLoopAdvance(before, i);
        i := i + 1;
      }
      TransferLoopEnd(View(), i);
    }

    /** The body of transfer_thread. */
    method TransferThread()
      requires Valid()
      modifies this, memory, pending
      ensures Valid() && View() == Dma.Transfer(old(View()))
    {
      dma := dma.(state := if dma.ioOperation == DMA_READ then DmaReading else DmaWriting);
      RunTransferLoop();
      if dma.state != DmaError {
        dma := dma.(state := DmaIdle, status := 0);
      }
      TriggerInterrupt(INT_IO_COMPLETION);
    }

    /** dma_start_transfer, with the transfer thread run to completion at once. */
    method DmaStartTransfer()
      requires Valid()
      modifies this, memory, pending
      ensures Valid() && View() == Dma.StartTransfer(old(View()))
    {
      if dma.state != DmaIdle {
        return;
      }
      if dma.memoryAddress < 0 || dma.memoryAddress >= MEMORY_SIZE {
        dma := dma.(status := 1, state := DmaError);
        return;
      }
      TransferThread();
    }

    /** dma_wait_completion: the transfer has already finished, so there is nothing to join. */
    method DmaWaitCompletion()
      requires Valid()
      ensures Valid() && View() == Dma.WaitCompletion(old(View()))
    {
    }

    /** dma_get_status */
    method DmaGetStatus() returns (status: int)
      requires Valid()
      ensures status == GetStatus(View())
    {
      status := dma.status;
    }

    /** dma_get_state */
    method DmaGetState() returns (state: DmaState)
      requires Valid()
      ensures state == GetState(View())
    {
      state := dma.state;
    }

    // -------------------------------------------------------------------------------
    // CPU

    /** init_cpu (through reset_cpu): the registers are reset and the CPU runs. */
    method InitCpu()
      requires Valid()
      modifies this
      ensures Valid() && View() == old(View()).(regs := InitialRegisters(), cpu := Running)
    {
      InitRegisters();
      cpu := Running;
    }

    /** set_cpu_state */
    method SetCpuState(state: CpuState)
      requires Valid()
      modifies this
      ensures Valid() && View() == old(View()).(cpu := state)
    {
      cpu := state;
    }

    /** get_cpu_state */
    method GetCpuState() returns (state: CpuState)
      requires Valid()
      ensures state == View().cpu
    {
      state := cpu;
    }

    /** The read of the fetch phase: MAR takes the PC and the word at that address is
        read. */
    method ReadInstructionWord() returns (w: Word)
      requires Valid()
      modifies this, pending
      ensures Valid() && cpu == old(cpu) && dma == old(dma)
      ensures var pc := old(regs.psw.pc); var r := Memory.ReadMemory(old(View()), pc);
        && regs == old(regs).(MAR := IntToWord(pc))
        && w == r.word && pending[..] == r.state.pending
    {
      ghost var s := View();
      RoundTrip(regs.psw.pc);
      regs := regs.(MAR := IntToWord(regs.psw.pc));
      ReadIgnoresTransferRegisters(s, View(), s.regs.psw.pc);
      var marValue := WordToInt(regs.MAR);
      w := ReadMemory(marValue);
    }

    /** The PC increment of the fetch phase. */
    method AdvancePC()
      modifies this
      ensures var next := (old(regs.psw.pc) + 1) % 1024;
        regs == old(regs).(PC := IntToWord(next), psw := old(regs.psw).(pc := next))
      ensures cpu == old(cpu) && dma == old(dma)
    {
      // PC_psw is a 10-bit field: the increment wraps around at 1024.
      regs := SetPCInt(regs, (regs.psw.pc + 1) % 1024);
    }

    /** fetch_instruction */
    method FetchInstruction() returns (instr: Instruction)
      requires Valid()
      modifies this, pending
      ensures Valid() && Fetch(old(View())) == Fetched(View(), instr)
    {
      ghost var s := View();
      var w := ReadInstructionWord();
      regs := regs.(MDR := w);
      regs := regs.(IR := regs.MDR);
      AdvancePC();
      instr := Decode(regs.IR, regs.AC);
      ghost var r := Memory.ReadMemory(s, s.regs.psw.pc);
      assert memory[..] == s.memory && pending[..] == r.state.pending;
      assert regs == s.regs.(MAR := IntToWord(s.regs.psw.pc), MDR := r.word, IR := r.word,
                             PC := IntToWord((s.regs.psw.pc + 1) % 1024), psw := s.regs.psw.(pc := (s.regs.psw.pc + 1) % 1024));
      assert instr == Decode(r.word, s.regs.AC);
      FetchOf(s, View(), instr);
    }

    /** The operand of the arithmetic and comparison groups. */
    method Operand(instr: Instruction) returns (value: int)
      requires Valid()
      modifies pending
      ensures Valid() && FetchOperand(old(View()), instr) == Cpu.Operand(View(), value)
    {
      if instr.mode == ADDR_IMMEDIATE {
        value := instr.value;
      } else {
        var w := ReadMemory(instr.effectiveAddress);
        value := WordToInt(w);
      }
    }

    /** Opcodes 0-3. */
    method ArithmeticOp(instr: Instruction)
      requires Valid() && 0 <= instr.opcode <= 3
      modifies this, pending
      ensures Valid() && View() == Arithmetic(old(View()), instr)
    {
      var ac := WordToInt(regs.AC);
      var operand := Operand(instr);
      var result := ArithmeticResult(instr.opcode, ac, operand);
      regs := regs.(AC := IntToWord(result));
      regs := UpdateConditionCode(regs, result);
      if OverflowCorrected(instr.opcode, ac, operand, result) {
        regs := regs.(psw := regs.psw.(conditionCode := CC_OVERFLOW));
        TriggerInterrupt(INT_OVERFLOW);
      }
    }

    /** Opcodes 4 and 5. */
    method LoadStoreOp(instr: Instruction)
      requires Valid() && (instr.opcode == OP_LOAD || instr.opcode == OP_STORE)
      modifies this, memory, pending
      ensures Valid() && View() == LoadStore(old(View()), instr)
    {
      if instr.opcode == OP_STORE {
        WriteMemory(instr.effectiveAddress, regs.AC);
      } else if instr.mode == ADDR_IMMEDIATE {
        regs := regs.(AC := IntToWord(instr.value));
      } else {
        var w := ReadMemory(instr.effectiveAddress);
        regs := regs.(AC := w);
      }
    }

    /** Opcodes 6-8. */
    method CompareOp(instr: Instruction)
      requires Valid() && 6 <= instr.opcode <= 8
      modifies this, pending
      ensures Valid() && View() == Compare(old(View()), instr)
    {
      var ac := WordToInt(regs.AC);
      var operand := Operand(instr);
      if instr.opcode == OP_CMP {
        regs := UpdateConditionCode(regs, ac - operand);
      } else if instr.opcode == OP_TST {
        regs := UpdateConditionCode(regs, BitAnd32(ac, operand));
      } else {
        regs := regs.(AC := IntToWord(operand));
      }
    }

    /** CALL */
    method CallOp(instr: Instruction)
      requires Valid()
      modifies this, memory, pending
      ensures Valid() && View() == Call(old(View()), instr)
    {
      var sp := WordToInt(regs.SP);
      WriteMemory(sp, IntToWord(regs.psw.pc));
      regs := regs.(SP := IntToWord(sp - 1));
      regs := SetPCInt(regs, instr.effectiveAddress);
    }

    /** RET */
    method ReturnOp()
      requires Valid()
      modifies this, pending
      ensures Valid() && View() == Return(old(View()))
    {
      ReturnFields(View());
      var sp := WordToInt(regs.SP) + 1;
      regs := regs.(SP := IntToWord(sp));
      var w := ReadMemory(sp);
      regs := SetPCInt(regs, WordToInt(w));
    }

    /** PUSH */
    method PushOp()
      requires Valid()
      modifies this, memory, pending
      ensures Valid() && View() == Push(old(View()))
    {
      var sp := WordToInt(regs.SP);
      WriteMemory(sp, regs.AC);
      regs := regs.(SP := IntToWord(sp - 1));
    }

    /** POP */
    method PopOp()
      requires Valid()
      modifies this, pending
      ensures Valid() && View() == Pop(old(View()))
    {
      PopFields(View());
      var sp := WordToInt(regs.SP) + 1;
      regs := regs.(SP := IntToWord(sp));
      var w := ReadMemory(sp);
      regs := regs.(AC := w);
    }

    /** Opcodes 9-15 and 27. */
    method ControlTransferOp(instr: Instruction)
      requires Valid() && (9 <= instr.opcode <= 15 || instr.opcode == 27)
      modifies this, memory, pending
      ensures Valid() && View() == ControlTransfer(old(View()), instr)
    {
      var op := instr.opcode;
      if op <= 12 {
        if JumpTaken(op, regs.psw.conditionCode) {
          regs := SetPCInt(regs, instr.effectiveAddress);
        }
      } else if op == 13 {
        TriggerInterrupt(INT_SYSCALL);
      } else if op == OP_CALL {
        CallOp(instr);
      } else if op == OP_RET {
        ReturnOp();
      } else {
        regs := SetPCInt(regs, instr.effectiveAddress);
      }
    }

    /** Opcodes 16-19, 25 and 26. */
    method RegisterOpMethod(instr: Instruction)
      requires Valid() && (16 <= instr.opcode <= 19 || instr.opcode == OP_PUSH || instr.opcode == OP_POP)
      modifies this, memory, pending
      ensures Valid() && View() == RegisterOp(old(View()), instr)
    {
      var op := instr.opcode;
      if op == 16 {
        regs := regs.(AC := regs.RB);
      } else if op == 17 {
        regs := regs.(RB := regs.AC);
      } else if op == 18 {
        regs := regs.(AC := regs.RL);
      } else if op == 19 {
        regs := regs.(RL := regs.AC);
      } else if op == OP_PUSH {
        PushOp();
      } else {
        PopOp();
      }
    }

    /** Opcodes 28-36. */
    method DeviceOpMethod(instr: Instruction)
      requires Valid() && 28 <= instr.opcode <= 36
      modifies this, memory, pending
      ensures Valid() && View() == DeviceOp(old(View()), instr)
    {
      var op := instr.opcode;
      if op == 28 || op == 29 {
        DmaSetMemoryAddress(instr.value);
        DmaSetIoOperation(if op == 28 then DMA_READ else DMA_WRITE);
        DmaStartTransfer();
      } else if op == 30 {
        DmaWaitCompletion();
      } else if op == 31 {
        var status := DmaGetStatus();
        regs := regs.(AC := IntToWord(status));
      } else if op == 32 {
        DmaSetDiskLocation(CDiv(instr.value, 10000), CDiv(CMod(instr.value, 10000), 100), CMod(instr.value, 100));
      } else if op == 33 {
        DmaSetTransferSize(instr.value);
      } else {
        TriggerInterrupt(INT_IO_COMPLETION);
      }
    }

    /** Opcodes 40-45. */
    method SystemOpMethod(instr: Instruction)
      requires Valid() && 40 <= instr.opcode <= 45
      modifies this
      ensures Valid() && View() == SystemOp(old(View()), instr)
    {
      var op := instr.opcode;
      if op == OP_HALT {
        cpu := Halted;
      } else if op == 42 {
        regs := regs.(psw := regs.psw.(interruptEnabled := 1));
      } else if op == 43 {
        regs := regs.(psw := regs.psw.(interruptEnabled := 0));
      } else if op == 44 {
        regs := regs.(psw := regs.psw.(operationMode := USER_MODE));
      } else if op == 45 {
        regs := regs.(psw := regs.psw.(operationMode := KERNEL_MODE));
      }
    }

    /** execute_instruction */
    method ExecuteInstruction(instr: Instruction)
      requires Valid()
      modifies this, memory, pending
      ensures Valid() && View() == Execute(old(View()), instr)
    {
      var op := instr.opcode;
      if !Implemented(op) {
        TriggerInterrupt(INT_INVALID_INSTRUCTION);
      } else if op <= 3 {
        ArithmeticOp(instr);
      } else if op <= 5 {
        LoadStoreOp(instr);
      } else if op <= 8 {
        CompareOp(instr);
      } else if op <= 15 || op == 27 {
        ControlTransferOp(instr);
      } else if op <= 26 {
        RegisterOpMethod(instr);
      } else if op <= 36 {
        DeviceOpMethod(instr);
      } else {
        SystemOpMethod(instr);
      }
    }

    /** cpu_cycle */
    method CpuCycle()
      requires Valid()
      modifies this, memory, pending
      ensures Valid() && View() == Cycle(old(View()))
    {
      if cpu != Running {
        return;
      }
      var instr := FetchInstruction();
      ExecuteInstruction(instr);
      HandlePendingInterrupts();
    }

    /** One cycle of execute_program's loop, which leaves n - 1 steps of `step` to go.
        The loop is stated over a `step` that agrees with Cycle, so that a proof about
        the loop does not unfold the instruction set at every step. */
    method CycleWithin(ghost step: State -> State, ghost n: nat, ghost target: State)
      requires Valid() && n > 0 && cpu == Running && Loop(step, View(), n) == target
      requires forall s {:trigger Cycle(s)} :: step(s) == Cycle(s)
      modifies this, memory, pending
      ensures Valid() && Loop(step, View(), n - 1) == target
    {
      ghost var before := View();
      CpuCycle();
      LoopAdvance(step, before, View(), n);
    }

    /** The loop of execute_program: cycles while the CPU runs, at most `fuel` times,
        which ends in the state `target` the specification's loop ends in. */
    method RunCycles(fuel: nat, ghost step: State -> State, ghost target: State)
      requires Valid() && Loop(step, View(), fuel) == target
      requires forall s {:trigger Cycle(s)} :: step(s) == Cycle(s)
      modifies this, memory, pending
      ensures Valid() && View() == target
    {
      var remaining := fuel;
      while remaining > 0 && cpu == Running
        invariant Valid()
        invariant Loop(step, View(), remaining) == target
        decreases remaining
      {
        CycleWithin(step, remaining, target);
        remaining := remaining - 1;
      }
      LoopDone(step, View(), remaining);
    }

    /** execute_program, with at most `fuel` cycles. */
    method ExecuteProgram(start: int, fuel: nat)
      requires Valid()
      modifies this, memory, pending
      ensures Valid() && View() == Cpu.ExecuteProgram(old(View()), start, fuel)
    {
      regs := SetPCInt(regs, start);
      cpu := Running;
      assert View() == old(View()).(regs := SetPCInt(old(regs), start), cpu := Running);
      RunCycles(fuel, Cycle, Cpu.ExecuteProgram(old(View()), start, fuel));
    }
  }
}
