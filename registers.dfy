/** The CPU register file and the processor status word (PSW), as values.
    The C bit-fields of the PSW become bounded integer types, so a PSW value
    can only hold what its 4-, 1-, 1- and 10-bit fields can hold. */
module Registers {
  import opened CInt
  import opened Words

  const USER_MODE := 0
  const KERNEL_MODE := 1
  const PC_FIELD_MAX := 1023

  type Nibble = x: int | 0 <= x < 16
  type Bit = x: int | 0 <= x < 2
  type PcField = x: int | 0 <= x <= PC_FIELD_MAX

  datatype Psw = Psw(conditionCode: Nibble, operationMode: Bit, interruptEnabled: Bit, pc: PcField)

  /** The nine Word registers and the PSW. */
  datatype Registers = Registers(
    AC: Word, MAR: Word, MDR: Word, IR: Word, RB: Word, RL: Word, RX: Word, SP: Word, PC: Word,
    psw: Psw)

  /** The 16-bit packing of psw_to_word: condition code in bits 0-3, mode in bit 4,
      interrupt enable in bit 5, the PC field in bits 6-15 (the masks are written as
      remainders, which is what they are on these non-negative fields). */
  function PackPsw(p: Psw): nat {
    var value := p.conditionCode % 16 + (p.operationMode % 2) * 16 + (p.interruptEnabled % 2) * 32 + (p.pc % 1024) * 64;
    value % 0x10000
  }

  function PswToWord(p: Psw): (w: Word)
    ensures Canonical(w) && w[0] == '0'
    ensures WordToInt(w) == PackPsw(p) <= 0xFFFF
  {
    assert PackPsw(p) <= 0xFFFF;
    IntToWordCanonical(PackPsw(p));
    IntToWordInRange(PackPsw(p));
    RoundTrip(PackPsw(p));
    IntToWord(PackPsw(p))
  }

  /** word_to_psw: a negative value is read as 0, then the fields are extracted by
      shifting and masking. */
  function WordToPsw(w: Word): Psw {
    var v := WordToInt(w);
    var u := if v < 0 then 0 else v;
    Psw(u % 16, (u / 16) % 2, (u / 32) % 2, (u / 64) % 1024)
  }

  lemma Unpack(cc: int, mode: int, ie: int, pc: int)
    requires 0 <= cc < 16 && 0 <= mode < 2 && 0 <= ie < 2 && 0 <= pc < 1024
    ensures var v := cc + mode * 16 + ie * 32 + pc * 64;
      v % 16 == cc && (v / 16) % 2 == mode && (v / 32) % 2 == ie && (v / 64) % 1024 == pc
  {
    var v := cc + mode * 16 + ie * 32 + pc * 64;
    assert v / 16 == mode + 2 * ie + 4 * pc;
    assert v / 32 == ie + 2 * pc;
    assert v / 64 == pc;
  }

  /** Division by a positive constant, from a decomposition x == k * q + r. */
  lemma DivOf(x: int, k: int, q: int, r: int)
    requires k > 0 && x >= 0 && x == k * q + r && 0 <= r < k
    ensures x / k == q && x % k == r
  {
    DivUnique(x, k, q);
  }

  lemma Repack(u: int)
    requires 0 <= u < 0x10000
    ensures u % 16 + ((u / 16) % 2) * 16 + ((u / 32) % 2) * 32 + ((u / 64) % 1024) * 64 == u
  {
    var a, b := u / 64, u % 64;
    var c, d := b / 32, b % 32;
    var e, f := d / 16, d % 16;
    assert u == 64 * a + 32 * c + 16 * e + f;
    DivOf(u, 16, 4 * a + 2 * c + e, f);
    DivOf(4 * a + 2 * c + e, 2, 2 * a + c, e);
    DivOf(u, 32, 2 * a + c, 16 * e + f);
    DivOf(2 * a + c, 2, a, c);
    DivOf(a, 1024, 0, a);
  }

  /** Packing the fields extracted from a 16-bit value gives the value back. */
  lemma PackUnpacked(u: int)
    requires 0 <= u < 0x10000
    ensures PackPsw(Psw(u % 16, (u / 16) % 2, (u / 32) % 2, (u / 64) % 1024)) == u
  {
    var cc, mode, ie, pc := u % 16, (u / 16) % 2, (u / 32) % 2, (u / 64) % 1024;
    Repack(u);
    DivOf(cc, 16, 0, cc);
    DivOf(mode, 2, 0, mode);
    DivOf(ie, 2, 0, ie);
    DivOf(pc, 1024, 0, pc);
    DivOf(u, 0x10000, 0, u);
    assert cc % 16 + (mode % 2) * 16 + (ie % 2) * 32 + (pc % 1024) * 64 == u;
  }

  /** Every PSW survives the trip through its Word form. */
  lemma PswRoundTrip(p: Psw)
    ensures WordToPsw(PswToWord(p)) == p
  {
    var cc: int, mode: int, ie: int, pc: int := p.conditionCode, p.operationMode, p.interruptEnabled, p.pc;
    var v := cc + mode * 16 + ie * 32 + pc * 64;
    assert cc % 16 == cc && mode % 2 == mode && ie % 2 == ie && pc % 1024 == pc;
    assert v < 0x10000;
    assert PackPsw(p) == v;
    Unpack(cc, mode, ie, pc);
    var w := PswToWord(p);
    assert WordToInt(w) == v;
    assert WordToPsw(w) == Psw(v % 16, (v / 16) % 2, (v / 32) % 2, (v / 64) % 1024);
  }

  /** A canonical word holding a value in 0..0xFFFF survives the trip through a PSW. */
  lemma WordPswRoundTrip(w: Word)
    requires Canonical(w) && 0 <= WordToInt(w) <= 0xFFFF
    ensures PswToWord(WordToPsw(w)) == w
  {
    var u := WordToInt(w);
    Repack(u);
    PackUnpacked(u);
    assert WordToPsw(w) == Psw(u % 16, (u / 16) % 2, (u / 32) % 2, (u / 64) % 1024);
    WordRoundTrip(w);
  }

  /** The clamping of a PC value to the 10-bit PSW field. */
  function ClampPc(n: int): (c: PcField)
    ensures 0 <= n <= PC_FIELD_MAX ==> c == n
    ensures n > PC_FIELD_MAX ==> c == PC_FIELD_MAX
    ensures n < 0 ==> c == 0
  {
    if n > PC_FIELD_MAX then PC_FIELD_MAX else if n < 0 then 0 else n
  }

  /** set_PC_int: both PC copies receive the clamped value, so they always agree. */
  function SetPCInt(r: Registers, n: int): (r': Registers)
    ensures r'.psw.pc == ClampPc(n) && WordToInt(r'.PC) == r'.psw.pc
    ensures r' == r.(PC := r'.PC, psw := r.psw.(pc := r'.psw.pc))
  {
    RoundTrip(ClampPc(n));
    r.(PC := IntToWord(ClampPc(n)), psw := r.psw.(pc := ClampPc(n)))
  }

  /** set_PC: the Word is stored in PC unchanged and only the PSW copy is clamped,
      so the two copies agree exactly when the Word's value lies in 0..1023. */
  function SetPC(r: Registers, w: Word): (r': Registers)
    ensures r'.PC == w && r'.psw.pc == ClampPc(WordToInt(w))
    ensures WordToInt(r'.PC) == r'.psw.pc <==> 0 <= WordToInt(w) <= PC_FIELD_MAX
    ensures r' == r.(PC := w, psw := r.psw.(pc := r'.psw.pc))
  {
    r.(PC := w, psw := r.psw.(pc := ClampPc(WordToInt(w))))
  }

  /** update_condition_code: 0 for a zero result, 1 for a negative one, 2 for a positive
      one; code 3 (overflow) is never produced here. */
  function UpdateConditionCode(r: Registers, result: int): (r': Registers)
    ensures r'.psw.conditionCode == 0 <==> result == 0
    ensures r'.psw.conditionCode == 1 <==> result < 0
    ensures r'.psw.conditionCode == 2 <==> result > 0
    ensures r'.psw.conditionCode != 3
    ensures r' == r.(psw := r.psw.(conditionCode := r'.psw.conditionCode))
  {
    r.(psw := r.psw.(conditionCode := if result == 0 then 0 else if result < 0 then 1 else 2))
  }

  /** init_registers: every register zero except RL = 1024 and SP = 1023; kernel mode,
      interrupts disabled, condition code 0 and PC field 0. */
  function InitialRegisters(): (r: Registers)
    ensures WordToInt(r.RL) == 1024 && WordToInt(r.SP) == 1023
    ensures WordToInt(r.AC) == 0 && WordToInt(r.PC) == r.psw.pc == 0
    ensures r.psw.operationMode == KERNEL_MODE && r.psw.interruptEnabled == 0
    ensures r.psw.conditionCode == 0 && WordToInt(r.RB) == 0
    ensures r.AC == r.MAR == r.MDR == r.IR == r.RB == r.RX == r.PC == ZERO_WORD
  {
    ZeroWordIsZero();
    RoundTrip(0);
    RoundTrip(1023);
    RoundTrip(1024);
    var zero := IntToWord(0);
    Registers(zero, zero, zero, zero, zero, IntToWord(1024), zero, IntToWord(1023), zero, Psw(0, KERNEL_MODE, 0, 0))
  }
}
