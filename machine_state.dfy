/** The whole emulated machine as one value: register file, main memory, the pending
    interrupt flags, the CPU run state and the DMA controller's control block.
    The specification functions of the other modules are transformers of this value;
    the `Machine` class of module Emulator holds the same state in mutable form. */
module MachineState {
  import opened Words
  import opened Registers

  const MEMORY_SIZE := 2000
  const OS_RESERVED := 300
  const INTERRUPT_COUNT := 9

  /** The disk geometry the DMA controller validates against. */
  const TRACKS := 10
  const CYLINDERS := 10
  const SECTORS_PER_CYLINDER := 100

  datatype CpuState = Running | Halted | WaitingIO | CpuError

  datatype DmaState = DmaIdle | DmaReading | DmaWriting | DmaError

  /** The fields of the DMA controller (its thread handle and bus lock are not modelled). */
  datatype DmaControl = DmaControl(
    memoryAddress: int, diskTrack: int, diskCylinder: int, diskSector: int,
    ioOperation: int, bytesToTransfer: int, state: DmaState, status: int)

  /** What the DMA setters and init_dma guarantee of the control block: a disk location
      inside the geometry, operation 0 (read) or 1 (write), a positive transfer size and
      status 0 (success) or 1 (error). The memory address is left free here, so that the
      address check of dma_start_transfer stays a live branch of the model; that the
      setters keep it inside memory is proved in module Dma. */
  predicate DmaValid(d: DmaControl) {
    && 0 <= d.diskTrack < TRACKS && 0 <= d.diskCylinder < CYLINDERS
    && 0 <= d.diskSector < SECTORS_PER_CYLINDER
    && (d.ioOperation == 0 || d.ioOperation == 1)
    && d.bytesToTransfer > 0
    && (d.status == 0 || d.status == 1)
  }

  datatype Snapshot = Snapshot(regs: Registers, memory: seq<Word>, pending: seq<bool>, cpu: CpuState, dma: DmaControl)

  /** A machine value whose memory has 2000 words, whose pending set has 9 flags and
      whose DMA control block is one the DMA interface can produce. */
  type State = s: Snapshot | |s.memory| == MEMORY_SIZE && |s.pending| == INTERRUPT_COUNT && DmaValid(s.dma)
    witness Snapshot(InitialRegisters(), seq(MEMORY_SIZE, _ => ZERO_WORD), seq(INTERRUPT_COUNT, _ => false),
                     Halted, DmaControl(0, 0, 0, 0, 0, 1, DmaIdle, 0))

  /** Everything but the pending flags is the same in both states. */
  predicate SameButPending(s: State, t: State) {
    t.regs == s.regs && t.memory == s.memory && t.cpu == s.cpu && t.dma == s.dma
  }
}
