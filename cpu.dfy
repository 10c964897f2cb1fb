/** The CPU: instruction decoding, addressing modes, the execute switch, the
    fetch/execute/interrupt cycle and the run loop, as transformers of the machine value. */
module Cpu {
  import opened CInt
  import opened Words
  import opened Registers
  import opened MachineState
  import opened Interrupts
  import opened Memory
  import opened Dma

  const ADDR_DIRECT := 0
  const ADDR_IMMEDIATE := 1
  const ADDR_INDEXED := 2

  /** Opcodes named in the lemmas. */
  const OP_SUM := 0
  const OP_SUB := 1
  const OP_MULT := 2
  const OP_DIVI := 3
  const OP_LOAD := 4
  const OP_STORE := 5
  const OP_CMP := 6
  const OP_TST := 7
  const OP_MOV := 8
  const OP_CALL := 14
  const OP_RET := 15
  const OP_PUSH := 25
  const OP_POP := 26
  const OP_HALT := 40

  /** A decoded instruction: opcode (2 digits), addressing mode (1 digit), value
      (5 digits) and the effective address computed from them. */
  datatype Instruction = Instruction(opcode: int, mode: int, value: int, effectiveAddress: int)

  /** What decoding a word that is not 8 characters long gives: opcode -1 (the other
      fields, which execution never reads, are 0 here). */
  const MALFORMED := Instruction(-1, 0, 0, 0)

  /** calculate_effective_address: the value itself in direct and immediate mode, AC plus
      the value in indexed mode, -1 for any other mode. */
  function EffectiveAddress(mode: int, value: int, ac: Word): (ea: int)
    ensures mode == ADDR_DIRECT || mode == ADDR_IMMEDIATE ==> ea == value
    ensures mode == ADDR_INDEXED ==> ea == WordToInt(ac) + value
    ensures mode !in {ADDR_DIRECT, ADDR_IMMEDIATE, ADDR_INDEXED} ==> ea == -1
  {
    if mode == ADDR_DIRECT || mode == ADDR_IMMEDIATE then value
    else if mode == ADDR_INDEXED then WordToInt(ac) + value
    else -1
  }

  lemma Pow10Fields()
    ensures Pow10(2) == 100 && Pow10(5) == 100000
  {
    assert Pow10(1) == 10;
    assert Pow10(2) == 100;
    assert Pow10(3) == 1000;
    assert Pow10(4) == 10000;
  }

  /** decode_instruction: opcode from characters 0-1, mode from character 2, value from
      characters 3-7 (each with atoi's leniency); `ac` is the accumulator the indexed mode
      adds. */
  function Decode(w: Word, ac: Word): (instr: Instruction)
    ensures |w| != WORD_LENGTH ==> instr == MALFORMED
    ensures |w| == WORD_LENGTH ==> -100 < instr.opcode < 100 && -100000 < instr.value < 100000
  {
    if |w| != WORD_LENGTH then MALFORMED
    else
      AtoiBound(w[..2]);
      AtoiBound(w[3..]);
      Pow10Fields();
      var opcode := Atoi(w[..2]);
      var mode := w[2] as int - '0' as int;
      var value := Atoi(w[3..]);
      Instruction(opcode, mode, value, EffectiveAddress(mode, value, ac))
  }

  /** The instruction word with the given opcode, mode and value, all as digits. */
  function Encode(opcode: nat, mode: nat, value: nat): (w: Word)
    requires opcode < 100 && mode < 10 && value < 100000
    ensures |w| == WORD_LENGTH && AllDigits(w)
  {
    ZeroPad(opcode, 2) + [DigitChar(mode)] + ZeroPad(value, 5)
  }

  /** Decoding an encoded instruction gives back its three fields. */
  lemma DecodeEncode(opcode: nat, mode: nat, value: nat, ac: Word)
    requires opcode < 100 && mode < 10 && value < 100000
    ensures Decode(Encode(opcode, mode, value), ac) == Instruction(opcode, mode, value, EffectiveAddress(mode, value, ac))
  {
    var w := Encode(opcode, mode, value);
    assert w[..2] == ZeroPad(opcode, 2);
    assert w[3..] == ZeroPad(value, 5);
    Pow10Fields();
    ZeroPadValue(opcode, 2);
    ZeroPadValue(value, 5);
    AtoiOfDigits(w[..2]);
    AtoiOfDigits(w[3..]);
  }

  /** Every 8-digit word is the encoding of the instruction it decodes to. */
  lemma EncodeDecode(w: Word, ac: Word)
    requires |w| == WORD_LENGTH && AllDigits(w)
    ensures var instr := Decode(w, ac);
      0 <= instr.opcode < 100 && 0 <= instr.mode < 10 && 0 <= instr.value < 100000 &&
      Encode(instr.opcode, instr.mode, instr.value) == w
  {
    DecodeDigits(w, ac);
    EncodeSplit(w);
  }

  /** An all-digit word decodes to the values of its digit fields. */
  lemma DecodeDigits(w: Word, ac: Word)
    requires |w| == WORD_LENGTH && AllDigits(w)
    ensures var mode := DigitValue(w[2]);
      Decode(w, ac) == Instruction(DigitsValue(w[..2]), mode, DigitsValue(w[3..]),
                                   EffectiveAddress(mode, DigitsValue(w[3..]), ac))
  {
    assert AllDigits(w[..2]) && AllDigits(w[3..]);
    AtoiOfDigits(w[..2]);
    AtoiOfDigits(w[3..]);
  }

  /** An all-digit word is the encoding of the values of its digit fields. */
  lemma EncodeSplit(w: Word)
    requires |w| == WORD_LENGTH && AllDigits(w)
    ensures DigitsValue(w[..2]) < 100 && DigitsValue(w[3..]) < 100000
    ensures Encode(DigitsValue(w[..2]), DigitValue(w[2]), DigitsValue(w[3..])) == w
  {
    var hi, lo := w[..2], w[3..];
    assert AllDigits(hi) && AllDigits(lo) && IsDigit(w[2]);
    Pow10Fields();
    ZeroPadOfDigits(hi);
    ZeroPadOfDigits(lo);
    var m := DigitValue(w[2]);
    assert DigitChar(m) == w[2];
    assert Encode(DigitsValue(hi), m, DigitsValue(lo)) == hi + [w[2]] + lo;
    assert w == hi + [w[2]] + lo;
  }

  datatype Fetched = Fetched(state: State, instr: Instruction)

  /** fetch_instruction: MAR takes the PC field, MDR and IR the word read there, the PC
      field is incremented (modulo 1024, as a 10-bit field) and copied to PC, and IR is
      decoded. */
  function Fetch(s: State): Fetched {
    var mar := IntToWord(s.regs.psw.pc);
    var s1 := s.(regs := s.regs.(MAR := mar));
    var r := ReadMemory(s1, WordToInt(mar));
    var s2 := r.state.(regs := r.state.regs.(MDR := r.word, IR := r.word));
    var s3 := s2.(regs := SetPCInt(s2.regs, (s2.regs.psw.pc + 1) % 1024));
    Fetched(s3, Decode(s3.regs.IR, s3.regs.AC))
  }

  /** A read does not depend on MAR, MDR or IR. */
  lemma ReadIgnoresTransferRegisters(s: State, t: State, a: int)
    requires t == s.(regs := s.regs.(MAR := t.regs.MAR, MDR := t.regs.MDR, IR := t.regs.IR))
    ensures ReadMemory(t, a).word == ReadMemory(s, a).word
    ensures ReadMemory(t, a).state == ReadMemory(s, a).state.(regs := t.regs)
  {
  }

  /** The fetch phase: MAR holds the old PC, MDR and IR the word read_memory returns for
      it, the PC (both copies) has advanced by one modulo 1024; memory is untouched, only
      the read's interrupt can be raised, and the instruction is IR decoded. */
  lemma FetchSpec(s: State)
    ensures var f := Fetch(s); var pc := s.regs.psw.pc; var r := ReadMemory(s, pc);
      && f.state.regs.MAR == IntToWord(pc) && WordToInt(f.state.regs.MAR) == pc
      && f.state.regs.MDR == r.word && f.state.regs.IR == r.word
      && f.state.regs.psw.pc == (pc + 1) % 1024 && WordToInt(f.state.regs.PC) == (pc + 1) % 1024
      && f.state.regs == s.regs.(MAR := f.state.regs.MAR, MDR := r.word, IR := r.word,
                                 PC := f.state.regs.PC, psw := s.regs.psw.(pc := (pc + 1) % 1024))
      && f.state.memory == s.memory && f.state.pending == r.state.pending
      && f.state.cpu == s.cpu && f.state.dma == s.dma
      && f.instr == Decode(r.word, s.regs.AC)
  {
    var pc := s.regs.psw.pc;
    RoundTrip(pc);
    var s1 := s.(regs := s.regs.(MAR := IntToWord(pc)));
    ReadIgnoresTransferRegisters(s, s1, pc);
    ReadMemorySpec(s, pc);
  }

  /** A state and instruction that agree with the fetch phase field by field are its
      result. */
  lemma FetchOf(s: State, t: State, instr: Instruction)
    requires var pc := s.regs.psw.pc; var r := ReadMemory(s, pc);
      && t.regs == s.regs.(MAR := IntToWord(pc), MDR := r.word, IR := r.word,
                           PC := IntToWord((pc + 1) % 1024), psw := s.regs.psw.(pc := (pc + 1) % 1024))
      && t.memory == s.memory && t.pending == r.state.pending && t.cpu == s.cpu && t.dma == s.dma
      && instr == Decode(r.word, s.regs.AC)
    ensures Fetch(s) == Fetched(t, instr)
  {
    FetchSpec(s);
  }

  /** The operand of an ALU instruction: the literal in immediate mode, otherwise the
      value of the word read at the effective address. */
  datatype Operand = Operand(state: State, value: int)

  function FetchOperand(s: State, instr: Instruction): (o: Operand)
    ensures SameButPending(s, o.state)
    ensures instr.mode == ADDR_IMMEDIATE ==> o == Operand(s, instr.value)
    ensures instr.mode != ADDR_IMMEDIATE ==>
      o == Operand(ReadMemory(s, instr.effectiveAddress).state, WordToInt(ReadMemory(s, instr.effectiveAddress).word))
  {
    if instr.mode == ADDR_IMMEDIATE then Operand(s, instr.value)
    else
      ReadMemorySpec(s, instr.effectiveAddress);
      var r := ReadMemory(s, instr.effectiveAddress);
      Operand(r.state, WordToInt(r.word))
  }

  /** The C int result of the four arithmetic opcodes: the product wraps around at 32
      bits (sums and differences of 7-digit values cannot leave the int range), and
      division by zero gives 0. */
  function ArithmeticResult(opcode: int, ac: int, operand: int): int
    requires 0 <= opcode <= 3
  {
    if opcode == 0 then ac + operand
    else if opcode == 1 then ac - operand
    else if opcode == 2 then Wrap32(ac * operand)
    else if operand != 0 then CDiv(ac, operand) else 0
  }

  /** The overflow test of the arithmetic group as cpu.c writes it. Its subtraction
      clause compares the wrong way round: it holds for every subtraction of a negative
      operand (see SubtractionOverflowAsWritten). */
  predicate OverflowDetected(opcode: int, ac: int, operand: int, result: int) {
    || (opcode == 0 && result < ac && operand > 0)
    || (opcode == 1 && result > ac && operand < 0)
    || (opcode == 2 && ac != 0 && CDiv(result, ac) != operand)
  }

  /** The test with the subtraction clause corrected: subtracting a negative operand
      overflows when the result wraps below AC. */
  predicate OverflowCorrected(opcode: int, ac: int, operand: int, result: int) {
    || (opcode == 0 && result < ac && operand > 0)
    || (opcode == 1 && result < ac && operand < 0)
    || (opcode == 2 && ac != 0 && CDiv(result, ac) != operand)
  }

  /** Opcodes 0-3: AC op operand into AC, the condition code from the result, and on a
      detected overflow condition code 3 and the overflow interrupt; `asWritten` selects
      the overflow test of cpu.c instead of the corrected one. */
  function ArithmeticWith(s: State, instr: Instruction, asWritten: bool): (t: State)
    requires 0 <= instr.opcode <= 3
    ensures t.cpu == s.cpu && t.dma == s.dma && t.memory == s.memory
  {
    var ac := WordToInt(s.regs.AC);
    var o := FetchOperand(s, instr);
    var result := ArithmeticResult(instr.opcode, ac, o.value);
    var s1 := o.state.(regs := UpdateConditionCode(o.state.regs.(AC := IntToWord(result)), result));
    var overflow := if asWritten then OverflowDetected(instr.opcode, ac, o.value, result)
                    else OverflowCorrected(instr.opcode, ac, o.value, result);
    if overflow then
      Trigger(s1.(regs := s1.regs.(psw := s1.regs.psw.(conditionCode := CC_OVERFLOW))), INT_OVERFLOW)
    else s1
  }

  /** The arithmetic group the rest of the model executes. */
  function Arithmetic(s: State, instr: Instruction): (t: State)
    requires 0 <= instr.opcode <= 3
    ensures t.cpu == s.cpu && t.dma == s.dma && t.memory == s.memory
  {
    ArithmeticWith(s, instr, false)
  }

  /** Opcodes 6-8: CMP sets the condition code from AC - operand, TST from AC & operand,
      MOV copies the operand into AC. */
  function Compare(s: State, instr: Instruction): (t: State)
    requires 6 <= instr.opcode <= 8
    ensures t.cpu == s.cpu && t.dma == s.dma
  {
    var ac := WordToInt(s.regs.AC);
    var o := FetchOperand(s, instr);
    if instr.opcode == OP_CMP then o.state.(regs := UpdateConditionCode(o.state.regs, ac - o.value))
    else if instr.opcode == OP_TST then o.state.(regs := UpdateConditionCode(o.state.regs, BitAnd32(ac, o.value)))
    else o.state.(regs := o.state.regs.(AC := IntToWord(o.value)))
  }

  /** The condition each of JEQ, JGT, JLT and JOV (opcodes 9-12) tests. */
  predicate JumpTaken(opcode: int, cc: int) {
    || (opcode == 9 && cc == 0)
    || (opcode == 10 && cc == 2)
    || (opcode == 11 && cc == 1)
    || (opcode == 12 && cc == 3)
  }

  /** Every transfer of control assigns the PC field and then calls set_PC_int with the
      same value, which overrides the assignment. */
  function JumpTo(s: State, target: int): (t: State)
    ensures t == s.(regs := t.regs) && t.regs.psw.pc == ClampPc(target) && WordToInt(t.regs.PC) == t.regs.psw.pc
  {
    s.(regs := SetPCInt(s.regs, target))
  }

  /** CALL: the return address (the PC field) is stored at SP, SP moves down one word,
      and control passes to the effective address. */
  function Call(s: State, instr: Instruction): (t: State)
    ensures t.cpu == s.cpu && t.dma == s.dma
  {
    var sp := WordToInt(s.regs.SP);
    var s1 := WriteMemory(s, sp, IntToWord(s.regs.psw.pc));
    var s2 := s1.(regs := s1.regs.(SP := IntToWord(sp - 1)));
    JumpTo(s2, instr.effectiveAddress)
  }

  /** RET: SP moves up one word, and control passes to the value of the word there. */
  function Return(s: State): (t: State)
    ensures t.cpu == s.cpu && t.dma == s.dma
  {
    var sp := WordToInt(s.regs.SP) + 1;
    var s1 := s.(regs := s.regs.(SP := IntToWord(sp)));
    var r := ReadMemory(s1, sp);
    JumpTo(r.state, WordToInt(r.word))
  }

  /** PUSH: AC is stored at SP and SP moves down one word. */
  function Push(s: State): (t: State)
    ensures t.cpu == s.cpu && t.dma == s.dma
  {
    var sp := WordToInt(s.regs.SP);
    var s1 := WriteMemory(s, sp, s.regs.AC);
    s1.(regs := s1.regs.(SP := IntToWord(sp - 1)))
  }

  /** POP: SP moves up one word and AC takes the word there. */
  function Pop(s: State): (t: State)
    ensures t.cpu == s.cpu && t.dma == s.dma
  {
    var sp := WordToInt(s.regs.SP) + 1;
    var s1 := s.(regs := s.regs.(SP := IntToWord(sp)));
    var r := ReadMemory(s1, sp);
    r.state.(regs := r.state.regs.(AC := r.word))
  }

  /** RET written out field by field. */
  lemma ReturnFields(s: State)
    ensures var sp := WordToInt(s.regs.SP) + 1;
      var r := ReadMemory(s.(regs := s.regs.(SP := IntToWord(sp))), sp);
      Return(s) == Snapshot(SetPCInt(s.regs.(SP := IntToWord(sp)), WordToInt(r.word)), s.memory, r.state.pending, s.cpu, s.dma)
  {
    var sp := WordToInt(s.regs.SP) + 1;
    var s1 := s.(regs := s.regs.(SP := IntToWord(sp)));
    var r := ReadMemory(s1, sp);
    assert r.state == s1.(pending := r.state.pending);
  }

  /** POP written out field by field. */
  lemma PopFields(s: State)
    ensures var sp := WordToInt(s.regs.SP) + 1;
      var r := ReadMemory(s.(regs := s.regs.(SP := IntToWord(sp))), sp);
      Pop(s) == Snapshot(s.regs.(SP := IntToWord(sp), AC := r.word), s.memory, r.state.pending, s.cpu, s.dma)
  {
    var sp := WordToInt(s.regs.SP) + 1;
    var s1 := s.(regs := s.regs.(SP := IntToWord(sp)));
    var r := ReadMemory(s1, sp);
    assert r.state == s1.(pending := r.state.pending);
  }

  /** DMA_READ and DMA_WRITE: set the memory address to the instruction's value, set the
      direction and start the transfer. */
  function DmaStart(s: State, address: int, operation: int): State
    requires operation == DMA_READ || operation == DMA_WRITE
  {
    StartTransfer(s.(dma := SetIoOperation(SetMemoryAddress(s.dma, address), operation)))
  }

  /** DMA_CONFIG: the value packs track, cylinder and sector as TTCCSS (C division). */
  function DmaConfig(s: State, value: int): State {
    s.(dma := SetDiskLocation(s.dma, CDiv(value, 10000), CDiv(CMod(value, 10000), 100), CMod(value, 100)))
  }

  /** LOAD and STR (opcodes 4 and 5). */
  function LoadStore(s: State, instr: Instruction): (t: State)
    requires instr.opcode == OP_LOAD || instr.opcode == OP_STORE
    ensures t.cpu == s.cpu && t.dma == s.dma
  {
    if instr.opcode == OP_STORE then WriteMemory(s, instr.effectiveAddress, s.regs.AC)
    else if instr.mode == ADDR_IMMEDIATE then s.(regs := s.regs.(AC := IntToWord(instr.value)))
    else
      var r := ReadMemory(s, instr.effectiveAddress);
      r.state.(regs := r.state.regs.(AC := r.word))
  }

  /** The conditional jumps (9-12), SVC (13), CALL (14), RET (15) and J (27). */
  function ControlTransfer(s: State, instr: Instruction): (t: State)
    requires 9 <= instr.opcode <= 15 || instr.opcode == 27
    ensures t.cpu == s.cpu && t.dma == s.dma
  {
    var op := instr.opcode;
    if op <= 12 then
      if JumpTaken(op, s.regs.psw.conditionCode) then JumpTo(s, instr.effectiveAddress) else s
    else if op == 13 then Trigger(s, INT_SYSCALL)
    else if op == OP_CALL then Call(s, instr)
    else if op == OP_RET then Return(s)
    else JumpTo(s, instr.effectiveAddress)
  }

  /** The register moves (16-19) and the stack (25, 26). */
  function RegisterOp(s: State, instr: Instruction): (t: State)
    requires 16 <= instr.opcode <= 19 || instr.opcode == OP_PUSH || instr.opcode == OP_POP
    ensures t.cpu == s.cpu && t.dma == s.dma
  {
    var op := instr.opcode;
    if op == 16 then s.(regs := s.regs.(AC := s.regs.RB))
    else if op == 17 then s.(regs := s.regs.(RB := s.regs.AC))
    else if op == 18 then s.(regs := s.regs.(AC := s.regs.RL))
    else if op == 19 then s.(regs := s.regs.(RL := s.regs.AC))
    else if op == OP_PUSH then Push(s)
    else Pop(s)
  }

  /** The DMA opcodes (28-33) and the I/O opcodes (34-36), which only signal completion. */
  function DeviceOp(s: State, instr: Instruction): (t: State)
    requires 28 <= instr.opcode <= 36
    ensures t.cpu == s.cpu
  {
    var op := instr.opcode;
    if op == 28 || op == 29 then
      DmaStart(s, instr.value, if op == 28 then DMA_READ else DMA_WRITE)
    else if op == 30 then WaitCompletion(s)
    else if op == 31 then s.(regs := s.regs.(AC := IntToWord(GetStatus(s))))
    else if op == 32 then DmaConfig(s, instr.value)
    else if op == 33 then s.(dma := SetTransferSize(s.dma, instr.value))
    else Trigger(s, INT_IO_COMPLETION)
  }

  /** HALT (40), NOP (41), EI/DI (42, 43) and the mode switches (44, 45). */
  function SystemOp(s: State, instr: Instruction): (t: State)
    requires 40 <= instr.opcode <= 45
    ensures t.memory == s.memory && t.pending == s.pending && t.dma == s.dma
  {
    var op := instr.opcode;
    var psw := s.regs.psw;
    if op == OP_HALT then s.(cpu := Halted)
    else if op == 41 then s
    else if op == 42 then s.(regs := s.regs.(psw := psw.(interruptEnabled := 1)))
    else if op == 43 then s.(regs := s.regs.(psw := psw.(interruptEnabled := 0)))
    else if op == 44 then s.(regs := s.regs.(psw := psw.(operationMode := USER_MODE)))
    else s.(regs := s.regs.(psw := psw.(operationMode := KERNEL_MODE)))
  }

  /** The opcodes the execute switch has a case for. */
  predicate Implemented(opcode: int) {
    0 <= opcode <= 19 || 25 <= opcode <= 36 || 40 <= opcode <= 45
  }

  /** execute_instruction: opcode -1 and every opcode without a case raise the
      invalid-instruction interrupt. */
  function Execute(s: State, instr: Instruction): State {
    var op := instr.opcode;
    if !Implemented(op) then Trigger(s, INT_INVALID_INSTRUCTION)
    else if op <= 3 then Arithmetic(s, instr)
    else if op <= 5 then LoadStore(s, instr)
    else if op <= 8 then Compare(s, instr)
    else if op <= 15 || op == 27 then ControlTransfer(s, instr)
    else if op <= 26 then RegisterOp(s, instr)
    else if op <= 36 then DeviceOp(s, instr)
    else SystemOp(s, instr)
  }

  /** cpu_cycle: nothing unless the CPU is running; otherwise fetch, execute, then
      service the pending interrupts. */
  function Cycle(s: State): State {
    if s.cpu != Running then s
    else
      var f := Fetch(s);
      HandlePending(Execute(f.state, f.instr))
  }

  /** A loop that applies `step` while the CPU is running, at most `fuel` times. */
  function Loop(step: State -> State, s: State, fuel: nat): State
    decreases fuel
  {
    if fuel == 0 || s.cpu != Running then s else Loop(step, step(s), fuel - 1)
  }

  /** The loop of execute_program, bounded by `fuel` cycles. */
  function Run(s: State, fuel: nat): State {
    Loop(Cycle, s, fuel)
  }

  /** execute_program: PC to the start address (through set_PC_int), running, then the loop. */
  function ExecuteProgram(s: State, start: int, fuel: nat): State {
    Run(s.(regs := SetPCInt(s.regs, start), cpu := Running), fuel)
  }

  // ---------------------------------------------------------------------------------
  // Properties of the execute switch

  /** As written, the overflow test fires on every subtraction of a negative operand,
      whatever AC holds. */
  lemma SubtractionOverflowAsWritten(ac: int, operand: int)
    ensures OverflowDetected(1, ac, operand, ArithmeticResult(1, ac, operand)) <==> operand < 0
  {
  }

  /** A memory operand that gets through is the stored word's value, fetched without effect. */
  lemma OperandFromMemory(s: State, instr: Instruction)
    requires instr.mode != ADDR_IMMEDIATE && Accessible(s, instr.effectiveAddress)
    ensures FetchOperand(s, instr) ==
      Operand(s, WordToInt(s.memory[PhysicalOf(s, instr.effectiveAddress)]))
  {
    ReadMemorySpec(s, instr.effectiveAddress);
  }

  /** The word SUB of the literal 5 from an AC of 0 leaves behind reads back as -5. */
  lemma MinusFiveWord()
    ensures IntToWord(-5) == "10000005" && WordToInt("10000005") == -5
  {
    EncodeMinusFive();
    RoundTrip(-5);
  }

  lemma EncodeMinusFive()
    ensures IntToWord(-5) == "10000005"
  {
    PadFive();
    assert IntToWord(-5) == ['1'] + ZeroPad(5, 7);
  }

  lemma PadFive()
    ensures ZeroPad(5, 7) == "0000005"
  {
    ZeroPadZero(6);
    assert ZeroPad(5, 7) == ZeroPad(0, 6) + [DigitChar(5)];
  }

  /** So SUB from an AC of 0 of a memory word holding -5 ("10000005", which SUB of the
      literal 5 followed by STR puts there), with interrupts enabled, sets cc 3 and raises
      the overflow interrupt although 0 - (-5) = 5 fits easily. */
  lemma SubtractionOverflowExample(s: State, instr: Instruction)
    requires instr.opcode == 1 && instr.mode != ADDR_IMMEDIATE
    requires Accessible(s, instr.effectiveAddress)
    requires s.memory[PhysicalOf(s, instr.effectiveAddress)] == "10000005"
    requires WordToInt(s.regs.AC) == 0 && s.regs.psw.interruptEnabled == 1
    ensures ArithmeticWith(s, instr, true).regs.psw.conditionCode == CC_OVERFLOW
    ensures ArithmeticWith(s, instr, true).pending[INT_OVERFLOW]
    ensures Arithmetic(s, instr).regs.psw.conditionCode == 2
    ensures Arithmetic(s, instr).pending == s.pending
  {
    MinusFiveWord();
    OperandFromMemory(s, instr);
    SubtractMinusFive(s, instr);
  }

  /** Both tests on a subtraction whose operand is -5, fetched without effect, from AC 0. */
  lemma SubtractMinusFive(s: State, instr: Instruction)
    requires instr.opcode == 1 && FetchOperand(s, instr) == Operand(s, -5)
    requires WordToInt(s.regs.AC) == 0 && s.regs.psw.interruptEnabled == 1
    ensures ArithmeticWith(s, instr, true).regs.psw.conditionCode == CC_OVERFLOW
    ensures ArithmeticWith(s, instr, true).pending[INT_OVERFLOW]
    ensures Arithmetic(s, instr).regs.psw.conditionCode == 2
    ensures Arithmetic(s, instr).pending == s.pending
  {
    var s1 := s.(regs := UpdateConditionCode(s.regs.(AC := IntToWord(5)), 5));
    TriggerEffect(s1.(regs := s1.regs.(psw := s1.regs.psw.(conditionCode := CC_OVERFLOW))), INT_OVERFLOW);
  }

  /** With the corrected test, sums and differences of mathematical integers never
      overflow: the comparisons only detect a C int that has wrapped around. */
  lemma AddSubNeverOverflow(ac: int, operand: int)
    ensures !OverflowCorrected(0, ac, operand, ArithmeticResult(0, ac, operand))
    ensures !OverflowCorrected(1, ac, operand, ArithmeticResult(1, ac, operand))
  {
  }

  /** The product test detects exactly the products that leave the 32-bit int range
      (for an AC that holds a Word value). */
  lemma MultOverflowIff(ac: int, operand: int)
    requires -MAX_MAGNITUDE <= ac <= MAX_MAGNITUDE
    ensures OverflowCorrected(2, ac, operand, ArithmeticResult(2, ac, operand)) <==>
      ac != 0 && !InInt32(ac * operand)
  {
    var p := ac * operand;
    var w := Wrap32(p);
    if ac != 0 {
      if InInt32(p) {
        CDivExact(operand, ac);
      } else {
        CDivSpec(w, ac);
        WrapDistance(p, w);
      }
    }
  }

  lemma MultOverflowPossible()
    ensures OverflowCorrected(2, 100000, 100000, ArithmeticResult(2, 100000, 100000))
  {
    MultOverflowIff(100000, 100000);
  }

  /** Opcodes 0-3 as the model executes them, with the corrected subtraction test: AC
      takes the word of the C result and cc its sign; only a product outside the int
      range sets cc 3 and raises the overflow interrupt; nothing else but
      the operand read's interrupt changes. */
  lemma ArithmeticSpec(s: State, instr: Instruction)
    requires 0 <= instr.opcode <= 3
    ensures var ac := WordToInt(s.regs.AC);
      var o := FetchOperand(s, instr);
      var result := ArithmeticResult(instr.opcode, ac, o.value);
      var t := Execute(s, instr);
      var overflow := instr.opcode == OP_MULT && ac != 0 && !InInt32(ac * o.value);
      && t.regs.AC == IntToWord(result)
      && (-MAX_MAGNITUDE <= result <= MAX_MAGNITUDE ==> WordToInt(t.regs.AC) == result)
      && t.regs.psw.conditionCode == (if overflow then CC_OVERFLOW else if result == 0 then 0 else if result < 0 then 1 else 2)
      && t.regs == s.regs.(AC := t.regs.AC, psw := s.regs.psw.(conditionCode := t.regs.psw.conditionCode))
      && t.memory == s.memory && t.cpu == s.cpu && t.dma == s.dma
      && t.pending == (if overflow then Trigger(o.state, INT_OVERFLOW).pending else o.state.pending)
  {
    assert Execute(s, instr) == Arithmetic(s, instr);
    ArithmeticFields(s, instr);
  }

  /** The arithmetic group on its own, as ArithmeticSpec states it for the execute switch. */
  lemma ArithmeticFields(s: State, instr: Instruction)
    requires 0 <= instr.opcode <= 3
    ensures var ac := WordToInt(s.regs.AC);
      var o := FetchOperand(s, instr);
      var result := ArithmeticResult(instr.opcode, ac, o.value);
      var t := Arithmetic(s, instr);
      var overflow := instr.opcode == OP_MULT && ac != 0 && !InInt32(ac * o.value);
      && t.regs.AC == IntToWord(result)
      && (-MAX_MAGNITUDE <= result <= MAX_MAGNITUDE ==> WordToInt(t.regs.AC) == result)
      && t.regs.psw.conditionCode == (if overflow then CC_OVERFLOW else if result == 0 then 0 else if result < 0 then 1 else 2)
      && t.regs == s.regs.(AC := t.regs.AC, psw := s.regs.psw.(conditionCode := t.regs.psw.conditionCode))
      && t.memory == s.memory && t.cpu == s.cpu && t.dma == s.dma
      && t.pending == (if overflow then Trigger(o.state, INT_OVERFLOW).pending else o.state.pending)
  {
    ArithmeticWithFields(s, instr, false);
  }

  /** What each overflow test flags, opcode by opcode, for an AC that holds a Word value. */
  lemma OverflowTests(opcode: int, ac: int, operand: int)
    requires 0 <= opcode <= 3 && -MAX_MAGNITUDE <= ac <= MAX_MAGNITUDE
    ensures OverflowCorrected(opcode, ac, operand, ArithmeticResult(opcode, ac, operand)) <==>
      opcode == OP_MULT && ac != 0 && !InInt32(ac * operand)
    ensures OverflowDetected(opcode, ac, operand, ArithmeticResult(opcode, ac, operand)) <==>
      (opcode == OP_MULT && ac != 0 && !InInt32(ac * operand)) || (opcode == OP_SUB && operand < 0)
  {
    AddSubNeverOverflow(ac, operand);
    SubtractionOverflowAsWritten(ac, operand);
    MultOverflowIff(ac, operand);
  }

  /** Both overflow tests field by field: the corrected one flags exactly the products
      that leave the int range; the one cpu.c writes flags, besides those, every SUB of a
      negative operand. */
  lemma ArithmeticWithFields(s: State, instr: Instruction, asWritten: bool)
    requires 0 <= instr.opcode <= 3
    ensures var ac := WordToInt(s.regs.AC);
      var o := FetchOperand(s, instr);
      var result := ArithmeticResult(instr.opcode, ac, o.value);
      var t := ArithmeticWith(s, instr, asWritten);
      var overflow := (instr.opcode == OP_MULT && ac != 0 && !InInt32(ac * o.value))
        || (asWritten && instr.opcode == OP_SUB && o.value < 0);
      && t.regs.AC == IntToWord(result)
      && (-MAX_MAGNITUDE <= result <= MAX_MAGNITUDE ==> WordToInt(t.regs.AC) == result)
      && t.regs.psw.conditionCode == (if overflow then CC_OVERFLOW else if result == 0 then 0 else if result < 0 then 1 else 2)
      && t.regs == s.regs.(AC := t.regs.AC, psw := s.regs.psw.(conditionCode := t.regs.psw.conditionCode))
      && t.memory == s.memory && t.cpu == s.cpu && t.dma == s.dma
      && t.pending == (if overflow then Trigger(o.state, INT_OVERFLOW).pending else o.state.pending)
  {
    var ac := WordToInt(s.regs.AC);
    var o := FetchOperand(s, instr);
    var result := ArithmeticResult(instr.opcode, ac, o.value);
    OverflowTests(instr.opcode, ac, o.value);
    var overflow := (instr.opcode == OP_MULT && ac != 0 && !InInt32(ac * o.value))
      || (asWritten && instr.opcode == OP_SUB && o.value < 0);
    RoundTrip(if -MAX_MAGNITUDE <= result <= MAX_MAGNITUDE then result else 0);
    var s1 := o.state.(regs := UpdateConditionCode(o.state.regs.(AC := IntToWord(result)), result));
    if overflow {
      var s2 := s1.(regs := s1.regs.(psw := s1.regs.psw.(conditionCode := CC_OVERFLOW)));
      TriggerEffect(s2, INT_OVERFLOW);
      TriggerEffect(o.state, INT_OVERFLOW);
      assert ArithmeticWith(s, instr, asWritten) == Trigger(s2, INT_OVERFLOW);
    } else {
      assert ArithmeticWith(s, instr, asWritten) == s1;
    }
  }

  /** Division by zero leaves 0 in AC and cc 0 and raises no interrupt of its own. */
  lemma DivisionByZero(s: State, instr: Instruction)
    requires instr.opcode == OP_DIVI && FetchOperand(s, instr).value == 0
    ensures var t := Execute(s, instr);
      t.regs.AC == ZERO_WORD && t.regs.psw.conditionCode == 0 &&
      t.pending == FetchOperand(s, instr).state.pending && t.memory == s.memory
    ensures instr.mode == ADDR_IMMEDIATE ==> Execute(s, instr).pending == s.pending
  {
    ArithmeticSpec(s, instr);
    ZeroWordIsZero();
  }

  /** CMP and TST set cc from AC - operand and AC & operand and change no other register;
      MOV copies the operand into AC and changes nothing else. */
  lemma CompareSpec(s: State, instr: Instruction)
    requires 6 <= instr.opcode <= 8
    ensures var ac := WordToInt(s.regs.AC);
      var o := FetchOperand(s, instr);
      var t := Execute(s, instr);
      var cc := t.regs.psw.conditionCode;
      && t.memory == s.memory && t.pending == o.state.pending && t.cpu == s.cpu && t.dma == s.dma
      && (instr.opcode == OP_CMP ==>
            t.regs == s.regs.(psw := s.regs.psw.(conditionCode := cc)) &&
            (cc == 0 <==> ac == o.value) && (cc == 1 <==> ac < o.value) && (cc == 2 <==> ac > o.value))
      && (instr.opcode == OP_TST ==>
            t.regs == s.regs.(psw := s.regs.psw.(conditionCode := cc)) &&
            (cc == 0 <==> BitAnd32(ac, o.value) == 0) && (cc == 1 <==> BitAnd32(ac, o.value) < 0))
      && (instr.opcode == OP_MOV ==> t.regs == s.regs.(AC := IntToWord(o.value)))
  {
  }

  /** CMP followed by JEQ, JLT or JGT jumps exactly when AC equals, is below or is above
      the operand. */
  lemma CompareThenJump(s: State, cmp: Instruction, jump: Instruction)
    requires cmp.opcode == OP_CMP && 9 <= jump.opcode <= 11
    ensures var ac := WordToInt(s.regs.AC);
      var o := FetchOperand(s, cmp);
      var t := Execute(s, cmp);
      JumpTaken(jump.opcode, t.regs.psw.conditionCode) <==>
        (jump.opcode == 9 && ac == o.value) || (jump.opcode == 10 && ac > o.value) || (jump.opcode == 11 && ac < o.value)
  {
    CompareSpec(s, cmp);
  }

  /** A conditional jump that is taken moves both PC copies to the (clamped) effective
      address; one that is not leaves the post-fetch PC; nothing else changes. */
  lemma JumpSpec(s: State, instr: Instruction)
    requires 9 <= instr.opcode <= 12
    ensures var t := Execute(s, instr);
      if JumpTaken(instr.opcode, s.regs.psw.conditionCode)
      then t.regs.psw.pc == ClampPc(instr.effectiveAddress) && WordToInt(t.regs.PC) == t.regs.psw.pc
      else t == s
    ensures var t := Execute(s, instr);
      t == s.(regs := s.regs.(PC := t.regs.PC, psw := s.regs.psw.(pc := t.regs.psw.pc)))
  {
  }

  /** A taken jump to a PC value makes the next fetch read the target address. */
  lemma JumpThenFetch(s: State, instr: Instruction)
    requires 9 <= instr.opcode <= 12 && JumpTaken(instr.opcode, s.regs.psw.conditionCode)
    requires 0 <= instr.effectiveAddress <= PC_FIELD_MAX
    ensures WordToInt(Fetch(Execute(s, instr)).state.regs.MAR) == instr.effectiveAddress
  {
    FetchSpec(Execute(s, instr));
  }

  /** A push that gets through stores AC at SP and moves SP down one word. */
  lemma PushSpec(s: State)
    requires Canonical(s.regs.SP) && Accessible(s, WordToInt(s.regs.SP))
    ensures var sp := WordToInt(s.regs.SP);
      && sp >= 0
      && Push(s) == s.(memory := s.memory[PhysicalOf(s, sp) := s.regs.AC], regs := s.regs.(SP := IntToWord(sp - 1)))
      && WordToInt(Push(s).regs.SP) == sp - 1
  {
    var sp := WordToInt(s.regs.SP);
    WriteMemorySpec(s, sp, s.regs.AC);
    assert sp >= 0 by { TranslationWindow(s, sp); }
    RoundTrip(sp - 1);
  }

  /** The pop that follows a push restores every register, leaving AC's copy on the stack. */
  lemma PushThenPop(s: State)
    requires Canonical(s.regs.SP) && Accessible(s, WordToInt(s.regs.SP))
    ensures Pop(Push(s)) == s.(memory := Push(s).memory)
    ensures Pop(Push(s)).memory[PhysicalOf(s, WordToInt(s.regs.SP))] == s.regs.AC
  {
    var sp := WordToInt(s.regs.SP);
    PushSpec(s);
    var pushed := Push(s);
    WordRoundTrip(s.regs.SP);
    var s1 := pushed.(regs := pushed.regs.(SP := s.regs.SP));
    AccessDependsOnWindow(s, s1, sp);
    ReadMemorySpec(s1, sp);
    assert Pop(pushed) == ReadMemory(s1, sp).state.(regs := s1.regs.(AC := ReadMemory(s1, sp).word));
  }

  /** A call that gets through stores the PC field at SP, moves SP down one word and
      jumps to the effective address; the pending flags are untouched. */
  lemma CallSpec(s: State, call: Instruction)
    requires Canonical(s.regs.SP) && Accessible(s, WordToInt(s.regs.SP))
    ensures var sp := WordToInt(s.regs.SP); var c := Call(s, call);
      && sp >= 0
      && c.memory == s.memory[PhysicalOf(s, sp) := IntToWord(s.regs.psw.pc)]
      && c.pending == s.pending
      && c.regs == s.regs.(SP := IntToWord(sp - 1), PC := c.regs.PC, psw := s.regs.psw.(pc := ClampPc(call.effectiveAddress)))
      && WordToInt(c.regs.SP) == sp - 1
  {
    var sp := WordToInt(s.regs.SP);
    WriteMemorySpec(s, sp, IntToWord(s.regs.psw.pc));
    assert sp >= 0 by { TranslationWindow(s, sp); }
    RoundTrip(sp - 1);
    var s1 := s.(memory := s.memory[PhysicalOf(s, sp) := IntToWord(s.regs.psw.pc)]);
    assert WriteMemory(s, sp, IntToWord(s.regs.psw.pc)) == s1;
    var s2 := s1.(regs := s1.regs.(SP := IntToWord(sp - 1)));
    assert Call(s, call) == JumpTo(s2, call.effectiveAddress);
  }

  /** CALL stores the return PC at SP, moves SP down and jumps; the RET that follows
      jumps back to that PC and restores SP. */
  lemma CallThenReturn(s: State, call: Instruction)
    requires Canonical(s.regs.SP) && Accessible(s, WordToInt(s.regs.SP))
    ensures var sp := WordToInt(s.regs.SP);
      var called := Call(s, call);
      var back := Return(called);
      && called.regs.psw.pc == ClampPc(call.effectiveAddress)
      && called.memory == s.memory[PhysicalOf(s, sp) := IntToWord(s.regs.psw.pc)]
      && WordToInt(called.regs.SP) == sp - 1
      && back.regs.psw == s.regs.psw && WordToInt(back.regs.PC) == s.regs.psw.pc
      && back.regs.SP == s.regs.SP && back.memory == called.memory && back.pending == s.pending
  {
    var sp := WordToInt(s.regs.SP);
    var pc := s.regs.psw.pc;
    CallSpec(s, call);
    var called := Call(s, call);
    WordRoundTrip(s.regs.SP);
    var s1 := called.(regs := called.regs.(SP := s.regs.SP));
    AccessDependsOnWindow(s, s1, sp);
    ReadMemorySpec(s1, sp);
    var r := ReadMemory(s1, sp);
    assert r == ReadResult(s1, IntToWord(pc));
    RoundTrip(pc);
    ReturnFields(called);
    assert Return(called) == JumpTo(s1, pc);
  }

  /** Opcode -1 (a malformed word) and every opcode the switch has no case for raise the
      invalid-instruction interrupt and change nothing else. */
  lemma UnimplementedOpcode(s: State, instr: Instruction)
    requires !Implemented(instr.opcode)
    ensures Execute(s, instr) == Trigger(s, INT_INVALID_INSTRUCTION)
    ensures SameButPending(s, Execute(s, instr))
  {
  }

  /** A word that is not 8 characters long executes as an invalid instruction. */
  lemma MalformedWordTraps(s: State, w: Word)
    requires |w| != WORD_LENGTH
    ensures Execute(s, Decode(w, s.regs.AC)) == Trigger(s, INT_INVALID_INSTRUCTION)
  {
  }

  /** DMA_CONFIG reads a 5-digit value as TCCSS: track and sector always fit the
      geometry, so the location is taken exactly when the two cylinder digits are below 10. */
  lemma DmaConfigLocation(s: State, instr: Instruction)
    requires instr.opcode == 32 && 0 <= instr.value < 100000
    ensures var v := instr.value;
      Execute(s, instr) ==
        if (v % 10000) / 100 < CYLINDERS
        then s.(dma := s.dma.(diskTrack := v / 10000, diskCylinder := (v % 10000) / 100, diskSector := v % 100))
        else s
  {
    var v := instr.value;
    NatDivMod(v, 10000);
    NatDivMod(v % 10000, 100);
    NatDivMod(v, 100);
    assert CMod(v, 10000) == v % 10000;
    assert CMod(v, 100) == v % 100;
    assert v / 10000 < 10;
  }

  /** Only HALT changes the CPU state. */
  lemma ExecuteCpuState(s: State, instr: Instruction)
    ensures Execute(s, instr).cpu == (if instr.opcode == OP_HALT then Halted else s.cpu)
  {
  }

  // ---------------------------------------------------------------------------------
  // Properties of the cycle and the run loop

  /** A CPU that is not running does not change. */
  lemma StoppedCpuStaysPut(s: State, fuel: nat)
    requires s.cpu != Running
    ensures Cycle(s) == s && Run(s, fuel) == s
  {
  }

  /** A running CPU stays running through a cycle unless the instruction fetched is HALT. */
  lemma CycleHalts(s: State)
    requires s.cpu == Running
    ensures Cycle(s).cpu == (if Fetch(s).instr.opcode == OP_HALT then Halted else Running)
    ensures forall i :: 0 <= i < INTERRUPT_COUNT ==> !Cycle(s).pending[i]
  {
    var f := Fetch(s);
    FetchSpec(s);
    ExecuteCpuState(f.state, f.instr);
    HandlePendingClearsAll(Execute(f.state, f.instr));
  }

  /** One turn of the loop while the CPU is running. */
  lemma LoopStep(step: State -> State, s: State, fuel: nat)
    requires fuel > 0 && s.cpu == Running
    ensures Loop(step, s, fuel) == Loop(step, step(s), fuel - 1)
  {
  }

  /** One step taken outside the loop leaves the rest of the loop to do. */
  lemma LoopAdvance(step: State -> State, s: State, t: State, fuel: nat)
    requires fuel > 0 && s.cpu == Running && t == step(s)
    ensures Loop(step, t, fuel - 1) == Loop(step, s, fuel)
  {
  }

  /** The loop stops once the fuel is spent or the CPU is no longer running. */
  lemma LoopDone(step: State -> State, s: State, fuel: nat)
    requires fuel == 0 || s.cpu != Running
    ensures Loop(step, s, fuel) == s
  {
  }

  /** Looping for a + b steps is looping for a steps and then for b more. */
  lemma {:induction false} LoopSplit(step: State -> State, s: State, a: nat, b: nat)
    ensures Loop(step, s, a + b) == Loop(step, Loop(step, s, a), b)
    decreases a
  {
    if a > 0 && s.cpu == Running {
      LoopSplit(step, step(s), a - 1, b);
      assert Loop(step, s, a + b) == Loop(step, step(s), a - 1 + b);
    }
  }

  /** Running for a + b cycles is running for a cycles and then for b more. */
  lemma RunSplit(s: State, a: nat, b: nat)
    ensures Run(s, a + b) == Run(Run(s, a), b)
  {
    LoopSplit(Cycle, s, a, b);
  }

  /** Once the run has stopped, more fuel changes nothing. */
  lemma RunStopped(s: State, n: nat, m: nat)
    requires n <= m && Run(s, n).cpu != Running
    ensures Run(s, m) == Run(s, n)
  {
    LoopStopped(Cycle, s, n, m);
  }

  lemma LoopStopped(step: State -> State, s: State, n: nat, m: nat)
    requires n <= m && Loop(step, s, n).cpu != Running
    ensures Loop(step, s, m) == Loop(step, s, n)
  {
    LoopSplit(step, s, n, m - n);
  }

  /** A loop whose step keeps a running CPU running or halted ends running or halted. */
  lemma {:induction false} LoopOutcome(step: State -> State, s: State, fuel: nat)
    requires forall x: State :: x.cpu == Running ==> step(x).cpu == Running || step(x).cpu == Halted
    requires s.cpu == Running || s.cpu == Halted
    ensures Loop(step, s, fuel).cpu == Running || Loop(step, s, fuel).cpu == Halted
    decreases fuel
  {
    if fuel > 0 && s.cpu == Running {
      LoopOutcome(step, step(s), fuel - 1);
    }
  }

  /** execute_program starts at the clamped start address with the CPU running, and only
      HALT can end its loop before the fuel runs out. */
  lemma ExecuteProgramOutcome(s: State, start: int, fuel: nat)
    ensures ExecuteProgram(s, start, 0).regs.psw.pc == ClampPc(start)
    ensures ExecuteProgram(s, start, 0).cpu == Running
    ensures ExecuteProgram(s, start, fuel).cpu == Running || ExecuteProgram(s, start, fuel).cpu == Halted
  {
    forall x: State | x.cpu == Running
      ensures Cycle(x).cpu == Running || Cycle(x).cpu == Halted
    {
      CycleHalts(x);
    }
    LoopOutcome(Cycle, s.(regs := SetPCInt(s.regs, start), cpu := Running), fuel);
  }
}
