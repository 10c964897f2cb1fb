/** Main memory: 2000 words behind a base/limit relocation window (RB, RL) and a
    kernel-only reserved area (the first 300 words). */
module Memory {
  import opened Words
  import opened Registers
  import opened MachineState
  import opened Interrupts

  const MEM_ERR: Word := "MEM_ERR"
  const ADDR_ERR: Word := "ADDR_ERR"
  const PRIV_ERR: Word := "PRIV_ERR"

  /** The memory the zero-filling loop of init_memory leaves behind: every word zero. */
  function InitialMemory(): (m: seq<Word>)
    ensures |m| == MEMORY_SIZE
    ensures forall i :: 0 <= i < MEMORY_SIZE ==> m[i] == ZERO_WORD
  {
    seq(MEMORY_SIZE, i => ZERO_WORD)
  }

  /** The result of logical_to_physical: the (possibly interrupted) state and the address. */
  datatype Translation = Translation(state: State, physical: int)

  /** logical_to_physical: no relocation while RB and RL are both 0; otherwise the address
      is shifted by RB and must stay in [RB, RB + RL), else an invalid-address interrupt
      is raised and -1 returned. */
  function LogicalToPhysical(s: State, logical: int): Translation {
    var rb := WordToInt(s.regs.RB);
    var rl := WordToInt(s.regs.RL);
    if rb == 0 && rl == 0 then Translation(s, logical)
    else
      var physical := logical + rb;
      if physical < rb || physical >= rb + rl then Translation(Trigger(s, INT_INVALID_ADDRESS), -1)
      else Translation(s, physical)
  }

  /** The protection window in plain terms: with relocation on, an address passes exactly
      when 0 <= logical < RL, and then maps to logical + RB without any other effect. */
  lemma TranslationWindow(s: State, logical: int)
    ensures WordToInt(s.regs.RB) == 0 && WordToInt(s.regs.RL) == 0 ==>
      LogicalToPhysical(s, logical) == Translation(s, logical)
    ensures !(WordToInt(s.regs.RB) == 0 && WordToInt(s.regs.RL) == 0) ==>
      LogicalToPhysical(s, logical) ==
        if 0 <= logical < WordToInt(s.regs.RL) then Translation(s, logical + WordToInt(s.regs.RB))
        else Translation(Trigger(s, INT_INVALID_ADDRESS), -1)
  {
  }

  /** Translation never changes anything but the pending flags. */
  lemma TranslationOnlyRaises(s: State, logical: int)
    ensures SameButPending(s, LogicalToPhysical(s, logical).state)
  {
  }

  /** The word an access reaches is barred to the current mode. */
  predicate Privileged(s: State, physical: int) {
    physical < OS_RESERVED && s.regs.psw.operationMode == USER_MODE
  }

  /** An access to `logical` gets through every check. */
  predicate Accessible(s: State, logical: int) {
    var t := LogicalToPhysical(s, logical);
    0 <= t.physical < MEMORY_SIZE && !Privileged(s, t.physical)
  }

  /** The physical address of an accessible logical address. */
  function PhysicalOf(s: State, logical: int): (p: nat)
    requires Accessible(s, logical)
    ensures p < MEMORY_SIZE
  {
    LogicalToPhysical(s, logical).physical
  }

  datatype ReadResult = ReadResult(state: State, word: Word)

  /** read_memory */
  function ReadMemory(s: State, logical: int): (r: ReadResult)
    ensures SameButPending(s, r.state)
  {
    var t := LogicalToPhysical(s, logical);
    var p := t.physical;
    if p < 0 then ReadResult(t.state, MEM_ERR)
    else if p >= MEMORY_SIZE then ReadResult(t.state, ADDR_ERR)
    else if Privileged(s, p) then ReadResult(Trigger(t.state, INT_INVALID_ADDRESS), PRIV_ERR)
    else ReadResult(t.state, s.memory[p])
  }

  /** write_memory */
  function WriteMemory(s: State, logical: int, w: Word): (t: State)
    ensures t.regs == s.regs && t.cpu == s.cpu && t.dma == s.dma
  {
    var t := LogicalToPhysical(s, logical);
    var p := t.physical;
    if p < 0 || p >= MEMORY_SIZE then t.state
    else if Privileged(s, p) then Trigger(t.state, INT_INVALID_ADDRESS)
    else t.state.(memory := s.memory[p := w])
  }

  /** A read that gets through returns the stored word and changes nothing; one that does
      not returns one of the three error words and changes only the pending flags: MEM_ERR
      when translation fails (with an invalid-address interrupt when the relocation window
      rejects the address), ADDR_ERR with no effect past the end of memory, and PRIV_ERR with
      an invalid-address interrupt for a user-mode access to the reserved area. */
  lemma ReadMemorySpec(s: State, logical: int)
    ensures Accessible(s, logical) ==>
      ReadMemory(s, logical) == ReadResult(s, s.memory[PhysicalOf(s, logical)])
    ensures !Accessible(s, logical) ==>
      ReadMemory(s, logical).word in {MEM_ERR, ADDR_ERR, PRIV_ERR} &&
      SameButPending(s, ReadMemory(s, logical).state)
    ensures LogicalToPhysical(s, logical).physical < 0 ==>
      ReadMemory(s, logical) == ReadResult(LogicalToPhysical(s, logical).state, MEM_ERR)
    ensures !(WordToInt(s.regs.RB) == 0 && WordToInt(s.regs.RL) == 0) &&
            !(0 <= logical < WordToInt(s.regs.RL)) ==>
      ReadMemory(s, logical) == ReadResult(Trigger(s, INT_INVALID_ADDRESS), MEM_ERR)
    ensures LogicalToPhysical(s, logical).physical >= MEMORY_SIZE ==>
      ReadMemory(s, logical) == ReadResult(s, ADDR_ERR)
    ensures 0 <= LogicalToPhysical(s, logical).physical < MEMORY_SIZE &&
            Privileged(s, LogicalToPhysical(s, logical).physical) ==>
      ReadMemory(s, logical) == ReadResult(Trigger(s, INT_INVALID_ADDRESS), PRIV_ERR)
  {
    TranslationWindow(s, logical);
  }

  /** A write that gets through replaces exactly one word; one that does not leaves
      memory untouched and changes only the pending flags. */
  lemma WriteMemorySpec(s: State, logical: int, w: Word)
    ensures Accessible(s, logical) ==>
      WriteMemory(s, logical, w) == s.(memory := s.memory[PhysicalOf(s, logical) := w])
    ensures !Accessible(s, logical) ==> SameButPending(s, WriteMemory(s, logical, w))
  {
  }

  /** read_memory and write_memory raise the same interrupts for the same address. */
  lemma ReadAndWriteRaiseAlike(s: State, logical: int, w: Word)
    ensures ReadMemory(s, logical).state.pending == WriteMemory(s, logical, w).pending
  {
  }

  /** A user-mode access to the reserved area is refused, raises the invalid-address
      interrupt (when interrupts are enabled) and leaves memory unchanged. */
  lemma ReservedAreaProtected(s: State, logical: int, w: Word)
    requires s.regs.psw.operationMode == USER_MODE
    requires 0 <= LogicalToPhysical(s, logical).physical < OS_RESERVED
    ensures ReadMemory(s, logical).word == PRIV_ERR
    ensures WriteMemory(s, logical, w).memory == s.memory
    ensures s.regs.psw.interruptEnabled == 1 ==> WriteMemory(s, logical, w).pending[INT_INVALID_ADDRESS]
  {
    TriggerEffect(LogicalToPhysical(s, logical).state, INT_INVALID_ADDRESS);
  }

  /** Reading back a word just written returns it, and the read changes nothing more. */
  lemma ReadAfterWrite(s: State, logical: int, w: Word)
    requires Accessible(s, logical)
    ensures ReadMemory(WriteMemory(s, logical, w), logical) == ReadResult(WriteMemory(s, logical, w), w)
  {
    var s' := WriteMemory(s, logical, w);
    assert s'.regs == s.regs;
    assert LogicalToPhysical(s', logical).physical == LogicalToPhysical(s, logical).physical;
  }

  /** A write leaves every other word as it was, so reading another accessible address
      after it gives what the read gave before. */
  lemma WriteLeavesOthers(s: State, a: int, b: int, w: Word)
    requires Accessible(s, a) && Accessible(s, b) && PhysicalOf(s, a) != PhysicalOf(s, b)
    ensures ReadMemory(WriteMemory(s, a, w), b).word == ReadMemory(s, b).word
  {
    var s' := WriteMemory(s, a, w);
    assert s'.regs == s.regs;
    assert LogicalToPhysical(s', b).physical == LogicalToPhysical(s, b).physical;
  }

  /** Whether an access gets through, and where it lands, depends only on RB, RL and
      the operation mode. */
  lemma AccessDependsOnWindow(s: State, t: State, logical: int)
    requires t.regs.RB == s.regs.RB && t.regs.RL == s.regs.RL
    requires t.regs.psw.operationMode == s.regs.psw.operationMode
    ensures Accessible(t, logical) == Accessible(s, logical)
    ensures Accessible(s, logical) ==> PhysicalOf(t, logical) == PhysicalOf(s, logical)
  {
  }

  /** is_valid_address: the whole memory in kernel mode, the user area otherwise. */
  function IsValidAddress(address: int, isKernelMode: bool): (ok: bool)
    ensures ok <==> 0 <= address < MEMORY_SIZE && (isKernelMode || address >= OS_RESERVED)
  {
    if isKernelMode then 0 <= address < MEMORY_SIZE
    else OS_RESERVED <= address < MEMORY_SIZE
  }

  /** Without relocation, is_valid_address agrees with what read_memory lets through. */
  lemma ValidAddressAgreesWithRead(s: State, address: int)
    requires WordToInt(s.regs.RB) == 0 && WordToInt(s.regs.RL) == 0
    ensures Accessible(s, address) <==> IsValidAddress(address, s.regs.psw.operationMode == KERNEL_MODE)
  {
  }

  /** set_memory_region: RB and RL take the base and limit, as int_to_word words. */
  function SetMemoryRegion(s: State, base: int, limit: int): State {
    s.(regs := s.regs.(RB := IntToWord(base), RL := IntToWord(limit)))
  }

  /** set_memory_region changes only RB and RL, which read back as the base and limit
      whenever these fit in a word. */
  lemma SetMemoryRegionReadsBack(s: State, base: int, limit: int)
    requires -MAX_MAGNITUDE <= base <= MAX_MAGNITUDE && -MAX_MAGNITUDE <= limit <= MAX_MAGNITUDE
    ensures var t := SetMemoryRegion(s, base, limit);
      WordToInt(t.regs.RB) == base && WordToInt(t.regs.RL) == limit &&
      t == s.(regs := s.regs.(RB := t.regs.RB, RL := t.regs.RL))
  {
    RoundTrip(base);
    RoundTrip(limit);
  }

  /** After set_memory_region with a positive limit, exactly the logical addresses
      0..limit-1 get through translation, to base..base+limit-1. */
  lemma MemoryRegionWindow(s: State, base: int, limit: int, logical: int)
    requires -MAX_MAGNITUDE <= base <= MAX_MAGNITUDE && 0 < limit <= MAX_MAGNITUDE
    ensures var t := SetMemoryRegion(s, base, limit);
      LogicalToPhysical(t, logical).physical == (if 0 <= logical < limit then logical + base else -1)
  {
    SetMemoryRegionReadsBack(s, base, limit);
  }

  /** dump_memory: the (address, word) lines printed for the range, with the start
      raised to 0 and the end lowered to the last address. */
  function DumpMemory(s: State, start: int, end: int): (lines: seq<(int, Word)>)
    ensures var lo := if start < 0 then 0 else start;
      var hi := if end >= MEMORY_SIZE then MEMORY_SIZE - 1 else end;
      |lines| == (if lo <= hi then hi - lo + 1 else 0) &&
      forall k :: 0 <= k < |lines| ==> lines[k] == (lo + k, s.memory[lo + k])
  {
    var lo := if start < 0 then 0 else start;
    var hi := if end >= MEMORY_SIZE then MEMORY_SIZE - 1 else end;
    if lo > hi then [] else seq(hi - lo + 1, k requires 0 <= k < hi - lo + 1 => (lo + k, s.memory[lo + k]))
  }
}
