/** The interrupt system: the nine-entry vector of handlers, the pending flags,
    raising an interrupt and servicing the pending ones in ascending code order. */
module Interrupts {
  import opened Words
  import opened Registers
  import opened MachineState

  const INT_INVALID_SYSCALL := 0
  const INT_INVALID_INTERRUPT := 1
  const INT_SYSCALL := 2
  const INT_TIMER := 3
  const INT_IO_COMPLETION := 4
  const INT_INVALID_INSTRUCTION := 5
  const INT_INVALID_ADDRESS := 6
  const INT_UNDERFLOW := 7
  const INT_OVERFLOW := 8

  /** The condition codes the underflow and overflow handlers store. */
  const CC_UNDERFLOW := 7
  const CC_OVERFLOW := 3

  /** The handlers installed in the vector. */
  datatype Handler =
    | InvalidSyscallHandler | InvalidInterruptHandler | SyscallHandler | TimerHandler
    | IoCompletionHandler | InvalidInstructionHandler | InvalidAddressHandler
    | UnderflowHandler | OverflowHandler

  /** The vector as init_interrupts fills it: entry i is the handler of code i. */
  const VECTOR: seq<Handler> := [
    InvalidSyscallHandler, InvalidInterruptHandler, SyscallHandler, TimerHandler,
    IoCompletionHandler, InvalidInstructionHandler, InvalidAddressHandler,
    UnderflowHandler, OverflowHandler]

  /** The flags init_interrupts leaves behind: nothing pending. */
  function NoPending(): (p: seq<bool>)
    ensures |p| == INTERRUPT_COUNT && forall i :: 0 <= i < INTERRUPT_COUNT ==> !p[i]
  {
    seq(INTERRUPT_COUNT, _ => false)
  }

  /** The effect of a handler on the registers: the system-call handler switches to
      kernel mode, the underflow and overflow handlers set the condition code, and
      the others only log. */
  function RunHandler(h: Handler, r: Registers): (r': Registers)
    ensures h == SyscallHandler ==> r' == r.(psw := r.psw.(operationMode := KERNEL_MODE))
    ensures h == UnderflowHandler ==> r' == r.(psw := r.psw.(conditionCode := CC_UNDERFLOW))
    ensures h == OverflowHandler ==> r' == r.(psw := r.psw.(conditionCode := CC_OVERFLOW))
    ensures h !in {SyscallHandler, UnderflowHandler, OverflowHandler} ==> r' == r
  {
    match h
    case SyscallHandler => r.(psw := r.psw.(operationMode := KERNEL_MODE))
    case UnderflowHandler => r.(psw := r.psw.(conditionCode := CC_UNDERFLOW))
    case OverflowHandler => r.(psw := r.psw.(conditionCode := CC_OVERFLOW))
    case _ => r
  }

  /** trigger_interrupt: an out-of-range code raises the invalid-interrupt code instead;
      a code in range is marked pending only while interrupts are enabled. */
  function Trigger(s: State, code: int): (t: State)
    ensures SameButPending(s, t)
    decreases if 0 <= code < INTERRUPT_COUNT then 0 else 1
  {
    if code < 0 || code > 8 then Trigger(s, INT_INVALID_INTERRUPT)
    else if s.regs.psw.interruptEnabled == 1 then s.(pending := s.pending[code := true])
    else s
  }

  /** The code an interrupt request ends up as. */
  function EffectiveCode(code: int): (c: nat)
    ensures c < INTERRUPT_COUNT
    ensures 0 <= code < INTERRUPT_COUNT ==> c == code
  {
    if 0 <= code < INTERRUPT_COUNT then code else INT_INVALID_INTERRUPT
  }

  /** Every request sets exactly the flag of its effective code, and only when interrupts are enabled. */
  lemma TriggerEffect(s: State, code: int)
    ensures s.regs.psw.interruptEnabled == 1 ==>
      Trigger(s, code).pending == s.pending[EffectiveCode(code) := true]
    ensures s.regs.psw.interruptEnabled == 0 ==> Trigger(s, code) == s
  {
  }

  /** With interrupts enabled, the raised flag is set and no other flag changes. */
  lemma TriggerSetsOnlyItsFlag(s: State, code: int, j: int)
    requires s.regs.psw.interruptEnabled == 1 && 0 <= j < INTERRUPT_COUNT
    ensures Trigger(s, code).pending[j] == (j == EffectiveCode(code) || s.pending[j])
  {
    TriggerEffect(s, code);
  }

  /** Raising the same interrupt twice is the same as raising it once. */
  lemma TriggerIdempotent(s: State, code: int)
    ensures Trigger(Trigger(s, code), code) == Trigger(s, code)
  {
    TriggerEffect(s, code);
    TriggerEffect(Trigger(s, code), code);
  }

  /** Raising two interrupts gives the same state in either order. */
  lemma TriggerCommutes(s: State, a: int, b: int)
    ensures Trigger(Trigger(s, a), b) == Trigger(Trigger(s, b), a)
  {
    TriggerEffect(s, a);
    TriggerEffect(s, b);
    TriggerEffect(Trigger(s, a), b);
    TriggerEffect(Trigger(s, b), a);
  }

  /** One iteration of handle_pending_interrupts for a pending code: kernel mode, the
      handler, then the flag is cleared (saving and restoring context only log). */
  function Service(s: State, code: nat): (t: State)
    requires code < INTERRUPT_COUNT
  {
    var kernel := s.regs.(psw := s.regs.psw.(operationMode := KERNEL_MODE));
    s.(regs := RunHandler(VECTOR[code], kernel), pending := s.pending[code := false])
  }

  /** The state after the loop of handle_pending_interrupts has examined codes 0..n-1. */
  function DrainUpTo(s: State, n: nat): (t: State)
    requires n <= INTERRUPT_COUNT
    ensures t.memory == s.memory && t.cpu == s.cpu && t.dma == s.dma
    decreases n
  {
    if n == 0 then s
    else
      var prev := DrainUpTo(s, n - 1);
      if prev.pending[n - 1] then Service(prev, n - 1) else prev
  }

  /** handle_pending_interrupts. */
  function HandlePending(s: State): State {
    DrainUpTo(s, INTERRUPT_COUNT)
  }

  predicate AnyPendingBelow(p: seq<bool>, n: nat)
    requires n <= |p|
  {
    exists i :: 0 <= i < n && p[i]
  }

  /** The condition code after servicing codes below n: overflow wins over underflow,
      which wins over the code already there. */
  function CodeAfterDrain(s: State, n: nat): Nibble
    requires n <= INTERRUPT_COUNT
  {
    if n > INT_OVERFLOW && s.pending[INT_OVERFLOW] then CC_OVERFLOW
    else if n > INT_UNDERFLOW && s.pending[INT_UNDERFLOW] then CC_UNDERFLOW
    else s.regs.psw.conditionCode
  }

  /** A closed form of the partial drain: flags below n are cleared, the others kept;
      kernel mode iff some flag below n was pending; the condition code as above; nothing
      else changes. */
  lemma {:induction false} DrainUpToClosedForm(s: State, n: nat)
    requires n <= INTERRUPT_COUNT
    ensures DrainUpTo(s, n).pending == seq(INTERRUPT_COUNT, i requires 0 <= i < INTERRUPT_COUNT => if i < n then false else s.pending[i])
    ensures DrainUpTo(s, n).regs == s.regs.(psw := s.regs.psw.(
      operationMode := if AnyPendingBelow(s.pending, n) then KERNEL_MODE else s.regs.psw.operationMode,
      conditionCode := CodeAfterDrain(s, n)))
  {
    if n > 0 {
      DrainUpToClosedForm(s, n - 1);
      var prev := DrainUpTo(s, n - 1);
      assert prev.pending[n - 1] == s.pending[n - 1];
      if s.pending[n - 1] {
        assert AnyPendingBelow(s.pending, n);
      } else {
        if AnyPendingBelow(s.pending, n) {
          var i :| 0 <= i < n && s.pending[i];
          assert i < n - 1;
          assert AnyPendingBelow(s.pending, n - 1);
        }
      }
    }
  }

  /** After handle_pending_interrupts no interrupt is pending. */
  lemma HandlePendingClearsAll(s: State)
    ensures forall i :: 0 <= i < INTERRUPT_COUNT ==> !HandlePending(s).pending[i]
  {
    DrainUpToClosedForm(s, INTERRUPT_COUNT);
  }

  /** The effect of handle_pending_interrupts on the registers: kernel mode exactly when
      something was pending; condition code 3 if an overflow was pending, else 7 if an
      underflow was pending, else unchanged; every other register unchanged. */
  lemma HandlePendingRegisters(s: State)
    ensures HandlePending(s).regs.psw.operationMode ==
      (if AnyPendingBelow(s.pending, INTERRUPT_COUNT) then KERNEL_MODE else s.regs.psw.operationMode)
    ensures HandlePending(s).regs.psw.conditionCode ==
      (if s.pending[INT_OVERFLOW] then CC_OVERFLOW
       else if s.pending[INT_UNDERFLOW] then CC_UNDERFLOW
       else s.regs.psw.conditionCode)
    ensures HandlePending(s).regs.psw.interruptEnabled == s.regs.psw.interruptEnabled
    ensures HandlePending(s).regs.psw.pc == s.regs.psw.pc
    ensures HandlePending(s).regs.(psw := s.regs.psw) == s.regs
  {
    DrainUpToClosedForm(s, INTERRUPT_COUNT);
  }

  /** With nothing pending, handle_pending_interrupts changes nothing. */
  lemma HandlePendingIdle(s: State)
    requires forall i :: 0 <= i < INTERRUPT_COUNT ==> !s.pending[i]
    ensures HandlePending(s) == s
  {
    DrainUpToClosedForm(s, INTERRUPT_COUNT);
    assert HandlePending(s).pending == s.pending;
  }

  /** Servicing twice in a row is servicing once. */
  lemma HandlePendingIdempotent(s: State)
    ensures HandlePending(HandlePending(s)) == HandlePending(s)
  {
    HandlePendingClearsAll(s);
    HandlePendingIdle(HandlePending(s));
  }
}
