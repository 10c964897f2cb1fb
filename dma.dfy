/** The DMA controller: its setters, its start/wait interface and the transfer between
    the disk and main memory. The transfer runs to completion as soon as it is started
    (the controller's worker thread, taken without interleaving). */
module Dma {
  import opened Words
  import opened Registers
  import opened MachineState
  import opened Interrupts
  import opened Memory

  const DMA_READ := 0
  const DMA_WRITE := 1

  /** init_dma: everything 0 except a transfer size of one sector; idle, status success. */
  function InitDma(): (d: DmaControl)
    ensures DmaValid(d) && d.state == DmaIdle && d.status == 0 && d.bytesToTransfer == 1
  {
    DmaControl(0, 0, 0, 0, DMA_READ, 1, DmaIdle, 0)
  }

  /** dma_set_memory_address: an address outside memory is refused. */
  function SetMemoryAddress(d: DmaControl, address: int): (d': DmaControl)
    ensures d'.memoryAddress == (if 0 <= address < MEMORY_SIZE then address else d.memoryAddress)
    ensures d' == d.(memoryAddress := d'.memoryAddress)
    ensures DmaValid(d) ==> DmaValid(d')
    ensures 0 <= d.memoryAddress < MEMORY_SIZE ==> 0 <= d'.memoryAddress < MEMORY_SIZE
  {
    if address < 0 || address >= MEMORY_SIZE then d else d.(memoryAddress := address)
  }

  /** dma_set_disk_location: all three coordinates are taken, or none is. */
  function SetDiskLocation(d: DmaControl, track: int, cylinder: int, sector: int): (d': DmaControl)
    ensures var ok := 0 <= track < TRACKS && 0 <= cylinder < CYLINDERS && 0 <= sector < SECTORS_PER_CYLINDER;
      d' == if ok then d.(diskTrack := track, diskCylinder := cylinder, diskSector := sector) else d
    ensures DmaValid(d) ==> DmaValid(d')
  {
    if track < 0 || track >= TRACKS || cylinder < 0 || cylinder >= CYLINDERS
       || sector < 0 || sector >= SECTORS_PER_CYLINDER
    then d
    else d.(diskTrack := track, diskCylinder := cylinder, diskSector := sector)
  }

  /** dma_set_io_operation: only 0 (disk to memory) and 1 (memory to disk) are taken. */
  function SetIoOperation(d: DmaControl, operation: int): (d': DmaControl)
    ensures d'.ioOperation == (if operation == DMA_READ || operation == DMA_WRITE then operation else d.ioOperation)
    ensures d' == d.(ioOperation := d'.ioOperation)
    ensures DmaValid(d) ==> DmaValid(d')
  {
    if operation != DMA_READ && operation != DMA_WRITE then d else d.(ioOperation := operation)
  }

  /** dma_set_transfer_size: only a positive size is taken. */
  function SetTransferSize(d: DmaControl, size: int): (d': DmaControl)
    ensures d'.bytesToTransfer == (if size > 0 then size else d.bytesToTransfer)
    ensures d' == d.(bytesToTransfer := d'.bytesToTransfer)
    ensures DmaValid(d) ==> DmaValid(d')
  {
    if size <= 0 then d else d.(bytesToTransfer := size)
  }

  /** No setter moves the controller out of, or into, a transfer or the error state. */
  lemma SettersKeepState(d: DmaControl, a: int, t: int, c: int, sec: int, op: int, size: int)
    ensures SetMemoryAddress(d, a).state == d.state && SetMemoryAddress(d, a).status == d.status
    ensures SetDiskLocation(d, t, c, sec).state == d.state && SetDiskLocation(d, t, c, sec).status == d.status
    ensures SetIoOperation(d, op).state == d.state && SetIoOperation(d, op).status == d.status
    ensures SetTransferSize(d, size).state == d.state && SetTransferSize(d, size).status == d.status
  {
  }

  /** The configuration a well-behaved driver keeps: a valid control block whose memory
      address lies inside memory. init_dma establishes it and every setter keeps it. */
  predicate Configured(d: DmaControl) {
    DmaValid(d) && 0 <= d.memoryAddress < MEMORY_SIZE
  }

  lemma ConfigurationInvariant(d: DmaControl, a: int, t: int, c: int, sec: int, op: int, size: int)
    ensures Configured(InitDma())
    ensures Configured(d) ==>
      && Configured(SetMemoryAddress(d, a)) && Configured(SetDiskLocation(d, t, c, sec))
      && Configured(SetIoOperation(d, op)) && Configured(SetTransferSize(d, size))
  {
  }

  /** dma_disk_read: the word the simulated disk returns for a location, the first eight
      characters of "T%02dC%02dS%03d" on the coordinates reduced to 2, 2 and 3 digits. */
  function DiskReadWord(track: nat, cylinder: nat, sector: nat): (w: Word)
    ensures |w| == WORD_LENGTH && w[0] == 'T' && w[3] == 'C' && w[6] == 'S'
    ensures AllDigits(w[1..3]) && DigitsValue(w[1..3]) == track % 100
    ensures AllDigits(w[4..6]) && DigitsValue(w[4..6]) == cylinder % 100
    ensures IsDigit(w[7]) && DigitValue(w[7]) == (sector % 1000) / 100
  {
    ZeroPadValue(track % 100, 2);
    ZeroPadValue(cylinder % 100, 2);
    var w := "T" + ZeroPad(track % 100, 2) + "C" + ZeroPad(cylinder % 100, 2) + "S"
      + [DigitChar((sector % 1000) / 100)];
    assert w[1..3] == ZeroPad(track % 100, 2);
    assert w[4..6] == ZeroPad(cylinder % 100, 2);
    w
  }

  /** A word read from the disk holds, as a machine value, the track number. */
  lemma DiskReadWordValue(track: nat, cylinder: nat, sector: nat)
    ensures WordToInt(DiskReadWord(track, cylinder, sector)) == track % 100
  {
    var w := DiskReadWord(track, cylinder, sector);
    assert w[1..] == w[1..3] + [w[3]] + w[4..];
    AtoiOfDigitsThen(w[1..3], w[3], w[4..]);
  }

  /** One pass of the transfer loop whose memory address is in range: a read transfer
      writes the disk word to memory, a write transfer reads the memory word (the disk
      write only logs). */
  function TransferStep(s: State, i: nat): (t: State)
    ensures t.regs == s.regs && t.cpu == s.cpu && t.dma == s.dma
  {
    var d := s.dma;
    if d.ioOperation == DMA_READ then
      WriteMemory(s, d.memoryAddress + i, DiskReadWord(d.diskTrack, d.diskCylinder, d.diskSector + i))
    else
      ReadMemory(s, d.memoryAddress + i).state
  }

  /** A pass of a disk read stores the disk's word. */
  lemma ReadPass(s: State, i: nat)
    requires s.dma.ioOperation == DMA_READ
    ensures var d := s.dma;
      TransferStep(s, i) == WriteMemory(s, d.memoryAddress + i, DiskReadWord(d.diskTrack, d.diskCylinder, d.diskSector + i))
  {
  }

  /** A pass of a disk write only reads memory, which can raise an interrupt. */
  lemma WritePass(s: State, i: nat)
    requires s.dma.ioOperation != DMA_READ
    ensures TransferStep(s, i) == s.(pending := ReadMemory(s, s.dma.memoryAddress + i).state.pending)
  {
    var r := ReadMemory(s, s.dma.memoryAddress + i);
    assert SameButPending(s, r.state);
  }

  /** The transfer loop from pass i on: a pass whose address falls outside memory stops it
      with the error state and status 1. */
  function TransferLoop(s: State, i: nat): (t: State)
    ensures t.regs == s.regs && t.cpu == s.cpu
    ensures t.dma == s.dma || t.dma == s.dma.(state := DmaError, status := 1)
    decreases if i <= s.dma.bytesToTransfer then s.dma.bytesToTransfer - i else 0
  {
    if i >= s.dma.bytesToTransfer then s
    else if s.dma.memoryAddress + i < MEMORY_SIZE then TransferLoop(TransferStep(s, i), i + 1)
    else s.(dma := s.dma.(state := DmaError, status := 1))
  }

  /** One pass of the loop that gets through, written as a step of TransferLoop. */
  lemma TransferLoopAdvance(s: State, i: nat)
    requires i < s.dma.bytesToTransfer && s.dma.memoryAddress + i < MEMORY_SIZE
    ensures TransferLoop(TransferStep(s, i), i + 1) == TransferLoop(s, i)
  {
  }

  /** A pass whose address falls outside memory ends the loop with the error state. */
  lemma TransferLoopStops(s: State, i: nat)
    requires i < s.dma.bytesToTransfer && s.dma.memoryAddress + i >= MEMORY_SIZE
    ensures TransferLoop(s, i) == s.(dma := s.dma.(state := DmaError, status := 1))
  {
  }

  /** Past the last pass the loop leaves the state as it is. */
  lemma TransferLoopEnd(s: State, i: nat)
    requires i >= s.dma.bytesToTransfer
    ensures TransferLoop(s, i) == s
  {
  }

  /** transfer_thread: mark the direction, run the loop, report success unless the loop
      failed, then raise the I/O-completion interrupt. */
  function Transfer(s: State): (t: State)
    ensures t.regs == s.regs && t.cpu == s.cpu
  {
    var busy := s.(dma := s.dma.(state := if s.dma.ioOperation == DMA_READ then DmaReading else DmaWriting));
    var done := TransferLoop(busy, 0);
    var reported := if done.dma.state != DmaError then done.(dma := done.dma.(state := DmaIdle, status := 0)) else done;
    Trigger(reported, INT_IO_COMPLETION)
  }

  /** dma_start_transfer: nothing happens while a transfer is in progress or after an
      error; an address outside memory is an error; otherwise the transfer runs. */
  function StartTransfer(s: State): (t: State)
    ensures t.regs == s.regs && t.cpu == s.cpu
  {
    if s.dma.state != DmaIdle then s
    else if s.dma.memoryAddress < 0 || s.dma.memoryAddress >= MEMORY_SIZE then
      s.(dma := s.dma.(status := 1, state := DmaError))
    else Transfer(s)
  }

  /** dma_wait_completion: the transfer has finished by the time it was started, so there
      is no thread left to join (see StartTransferSettles) and waiting changes nothing. */
  function WaitCompletion(s: State): State {
    s
  }

  /** dma_get_status */
  function GetStatus(s: State): (status: int)
    ensures status == 0 || status == 1
  {
    s.dma.status
  }

  /** dma_get_state */
  function GetState(s: State): DmaState {
    s.dma.state
  }

  /** The loop fails exactly when some pass would fall outside memory. */
  lemma {:induction false} TransferLoopOutcome(s: State, i: nat)
    requires i <= s.dma.bytesToTransfer && s.dma.memoryAddress + i <= MEMORY_SIZE
    ensures TransferLoop(s, i).dma ==
      if s.dma.memoryAddress + s.dma.bytesToTransfer > MEMORY_SIZE
      then s.dma.(state := DmaError, status := 1) else s.dma
    decreases s.dma.bytesToTransfer - i
  {
    if i < s.dma.bytesToTransfer {
      if s.dma.memoryAddress + i < MEMORY_SIZE {
        TransferLoopOutcome(TransferStep(s, i), i + 1);
      }
    }
  }

  /** Starting a transfer from idle ends idle with status 0, or, when the transfer runs off
      the end of memory, in the error state with status 1; a controller that is busy or in
      error ignores the request. Registers and the CPU state never change. */
  lemma StartTransferOutcome(s: State)
    ensures StartTransfer(s).regs == s.regs && StartTransfer(s).cpu == s.cpu
    ensures s.dma.state != DmaIdle ==> StartTransfer(s) == s
    ensures s.dma.state == DmaIdle ==>
      var d := StartTransfer(s).dma;
      d == if s.dma.memoryAddress < 0 || s.dma.memoryAddress + s.dma.bytesToTransfer > MEMORY_SIZE
           then s.dma.(state := DmaError, status := 1)
           else s.dma.(state := DmaIdle, status := 0)
  {
    if s.dma.state == DmaIdle && 0 <= s.dma.memoryAddress < MEMORY_SIZE {
      var busy := s.(dma := s.dma.(state := if s.dma.ioOperation == DMA_READ then DmaReading else DmaWriting));
      TransferLoopOutcome(busy, 0);
    }
  }

  /** After a start request the controller is never left mid-transfer, so
      dma_wait_completion never has to wait. */
  lemma StartTransferSettles(s: State)
    requires s.dma.state == DmaIdle || s.dma.state == DmaError
    ensures StartTransfer(s).dma.state == DmaIdle || StartTransfer(s).dma.state == DmaError
  {
    StartTransferOutcome(s);
  }

  /** The error state is sticky: once there, no start request changes anything. */
  lemma ErrorIsSticky(s: State)
    requires s.dma.state == DmaError
    ensures StartTransfer(s) == s
  {
  }

  /** A started transfer raises the I/O-completion interrupt whenever interrupts are enabled. */
  lemma StartTransferSignalsCompletion(s: State)
    requires s.dma.state == DmaIdle && 0 <= s.dma.memoryAddress < MEMORY_SIZE
    requires s.regs.psw.interruptEnabled == 1
    ensures StartTransfer(s).pending[INT_IO_COMPLETION]
  {
    var busy := s.(dma := s.dma.(state := if s.dma.ioOperation == DMA_READ then DmaReading else DmaWriting));
    var done := TransferLoop(busy, 0);
    var reported := if done.dma.state != DmaError then done.(dma := done.dma.(state := DmaIdle, status := 0)) else done;
    TriggerEffect(reported, INT_IO_COMPLETION);
  }

  /** A memory-to-disk transfer never changes memory. */
  lemma {:induction false} WriteLoopKeepsMemory(s: State, i: nat)
    requires s.dma.ioOperation == DMA_WRITE
    ensures TransferLoop(s, i).memory == s.memory
    decreases if i <= s.dma.bytesToTransfer then s.dma.bytesToTransfer - i else 0
  {
    if i < s.dma.bytesToTransfer && s.dma.memoryAddress + i < MEMORY_SIZE {
      ReadMemorySpec(s, s.dma.memoryAddress + i);
      WriteLoopKeepsMemory(TransferStep(s, i), i + 1);
    }
  }

  lemma StartWriteTransferKeepsMemory(s: State)
    requires s.dma.ioOperation == DMA_WRITE
    ensures StartTransfer(s).memory == s.memory
  {
    if s.dma.state == DmaIdle {
      var busy := s.(dma := s.dma.(state := DmaWriting));
      WriteLoopKeepsMemory(busy, 0);
    }
  }

  /** Without relocation and in kernel mode every in-range address is accessible. */
  predicate Unprotected(s: State) {
    WordToInt(s.regs.RB) == 0 && WordToInt(s.regs.RL) == 0 && s.regs.psw.operationMode == KERNEL_MODE
  }

  /** Memory after a disk-to-memory loop has run passes i.. with no protection in the way:
      the words from memoryAddress + i up to the end of the transfer (or of memory) hold
      the disk words of their sectors, the rest is unchanged. */
  function ReadLoopMemory(s: State, i: nat): seq<Word> {
    var d := s.dma;
    seq(MEMORY_SIZE, j requires 0 <= j < MEMORY_SIZE =>
      if d.memoryAddress + i <= j < d.memoryAddress + d.bytesToTransfer
      then DiskReadWord(d.diskTrack, d.diskCylinder, d.diskSector + (j - d.memoryAddress))
      else s.memory[j])
  }

  /** One pass of the read loop extends the filled stretch by the word it writes. */
  lemma ReadLoopMemoryStep(s: State, t: State, i: nat)
    requires t.dma == s.dma && i < s.dma.bytesToTransfer && 0 <= s.dma.memoryAddress + i < MEMORY_SIZE
    requires t.memory == s.memory[s.dma.memoryAddress + i :=
      DiskReadWord(s.dma.diskTrack, s.dma.diskCylinder, s.dma.diskSector + i)]
    ensures ReadLoopMemory(t, i + 1) == ReadLoopMemory(s, i)
  {
    var a := s.dma.memoryAddress + i;
    forall j | 0 <= j < MEMORY_SIZE
      ensures ReadLoopMemory(t, i + 1)[j] == ReadLoopMemory(s, i)[j]
    {
      if j == a {
        assert s.dma.diskSector + (j - s.dma.memoryAddress) == s.dma.diskSector + i;
      }
    }
  }

  /** An unprotected pass of the read loop stores the disk word at its own address. */
  lemma ReadLoopPass(s: State, i: nat)
    requires s.dma.ioOperation == DMA_READ && Unprotected(s)
    requires i < s.dma.bytesToTransfer && 0 <= s.dma.memoryAddress + i < MEMORY_SIZE
    ensures var d := s.dma; var t := TransferStep(s, i);
      && t.memory == s.memory[d.memoryAddress + i := DiskReadWord(d.diskTrack, d.diskCylinder, d.diskSector + i)]
      && t.dma == d && Unprotected(t)
  {
    var d := s.dma;
    var a := d.memoryAddress + i;
    TranslationWindow(s, a);
    assert Accessible(s, a) && PhysicalOf(s, a) == a;
    WriteMemorySpec(s, a, DiskReadWord(d.diskTrack, d.diskCylinder, d.diskSector + i));
    ReadPass(s, i);
  }

  lemma {:induction false} ReadLoopFills(s: State, i: nat)
    requires s.dma.ioOperation == DMA_READ && Unprotected(s) && s.dma.memoryAddress >= 0
    ensures TransferLoop(s, i).memory == ReadLoopMemory(s, i)
    decreases if i <= s.dma.bytesToTransfer then s.dma.bytesToTransfer - i else 0
  {
    var d := s.dma;
    if i >= d.bytesToTransfer {
      assert ReadLoopMemory(s, i) == s.memory;
    } else if d.memoryAddress + i < MEMORY_SIZE {
      var t := TransferStep(s, i);
      ReadLoopPass(s, i);
      ReadLoopMemoryStep(s, t, i);
      ReadLoopFills(t, i + 1);
      TransferLoopAdvance(s, i);
    } else {
      assert ReadLoopMemory(s, i) == s.memory;
    }
  }

  /** A transfer started from idle at an address inside memory changes memory only
      through its loop. */
  lemma StartTransferMemory(s: State)
    requires s.dma.state == DmaIdle && 0 <= s.dma.memoryAddress < MEMORY_SIZE
    ensures var busy := s.(dma := s.dma.(state := if s.dma.ioOperation == DMA_READ then DmaReading else DmaWriting));
      StartTransfer(s).memory == TransferLoop(busy, 0).memory
  {
  }

  /** A disk-to-memory transfer started in kernel mode without relocation fills memory from
      the start address on, one disk word per sector, as far as memory reaches, and leaves
      every other word alone (ReadLoopMemory from pass 0). */
  lemma StartReadTransferFills(s: State)
    requires s.dma.state == DmaIdle && s.dma.ioOperation == DMA_READ && Unprotected(s)
    requires 0 <= s.dma.memoryAddress < MEMORY_SIZE
    ensures StartTransfer(s).memory == ReadLoopMemory(s, 0)
  {
    var busy := s.(dma := s.dma.(state := DmaReading));
    ReadLoopFills(busy, 0);
    StartTransferMemory(s);
    assert ReadLoopMemory(busy, 0) == ReadLoopMemory(s, 0);
  }
}
