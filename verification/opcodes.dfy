/** The instruction handlers of Opcode6502.java. `getInstruction(opcode)` returns one lambda per
    opcode; the model splits each lambda into what it is (the mnemonic, the addressing mode and
    the cycle count it returns: the table `Decode`) and what it does (`Semantics`, one case per
    mnemonic, each following its arms' own operand resolution, quirks included). The methods run
    the same handlers on a `Cpu` in place and are proved to agree with the functions. */
module Opcode6502 {
  import opened Bits
  import opened Wrappers
  import opened Isa
  import opened Cpu6502

  /** One arm of getInstruction: the instruction, its addressing mode and the cycles it returns
      (for a branch, the count when the branch is not taken). */
  datatype Instr = Instr(mnemonic: Mnemonic, mode: Mode, cycles: nat)

  /** The arm getInstruction selects for an opcode; None for the default arm. The table is laid
      out as the 16 x 16 opcode matrix, one function per high nibble. The branches are listed in
      the zero-page mode, as the assembler's table lists them; 0x91 (STA (zp),Y) calls indirectY
      although its comment says "Indirect, X"; 0xFD is SBC absolute and 0xED SBC absolute,X, the
      reverse of the 6502's assignment. */
  function Decode(op: Byte): (r: Option<Instr>)
    ensures r.Some? ==> OperandFits(r.value.mnemonic, r.value.mode)
    ensures r.Some? ==> 2 <= r.value.cycles <= 7
  {
    if op < 0x80 then
      if op < 0x40 then
        if op < 0x20 then (if op < 0x10 then Row0(op) else Row1(op - 0x10))
        else (if op < 0x30 then Row2(op - 0x20) else Row3(op - 0x30))
      else
        if op < 0x60 then (if op < 0x50 then Row4(op - 0x40) else Row5(op - 0x50))
        else (if op < 0x70 then Row6(op - 0x60) else Row7(op - 0x70))
    else
      if op < 0xC0 then
        if op < 0xA0 then (if op < 0x90 then Row8(op - 0x80) else Row9(op - 0x90))
        else (if op < 0xB0 then RowA(op - 0xA0) else RowB(op - 0xB0))
      else
        if op < 0xE0 then (if op < 0xD0 then RowC(op - 0xC0) else RowD(op - 0xD0))
        else (if op < 0xF0 then RowE(op - 0xE0) else RowF(op - 0xF0))
  }

  /** Opcodes 0x00 to 0x0F. */
  function Row0(low: int): (r: Option<Instr>)
    ensures r.Some? ==> OperandFits(r.value.mnemonic, r.value.mode)
    ensures r.Some? ==> 2 <= r.value.cycles <= 7
  {
    match low
    case 0x0 => Some(Instr(BRK, Imp, 7))
    case 0x1 => Some(Instr(ORA, Inx, 6))
    case 0x5 => Some(Instr(ORA, Zp, 3))
    case 0x6 => Some(Instr(ASL, Zp, 5))
    case 0x8 => Some(Instr(PHP, Imp, 3))
    case 0x9 => Some(Instr(ORA, Imm, 2))
    case 0xA => Some(Instr(ASL, Acc, 2))
    case 0xD => Some(Instr(ORA, Abs, 4))
    case 0xE => Some(Instr(ASL, Abs, 6))
    case _ => None
  }

  /** Opcodes 0x10 to 0x1F. */
  function Row1(low: int): (r: Option<Instr>)
    ensures r.Some? ==> OperandFits(r.value.mnemonic, r.value.mode)
    ensures r.Some? ==> 2 <= r.value.cycles <= 7
  {
    match low
    case 0x0 => Some(Instr(BPL, Zp, 2))
    case 0x1 => Some(Instr(ORA, Iny, 5))
    case 0x5 => Some(Instr(ORA, Zpx, 4))
    case 0x6 => Some(Instr(ASL, Zpx, 6))
    case 0x8 => Some(Instr(CLC, Imp, 2))
    case 0x9 => Some(Instr(ORA, Aby, 4))
    case 0xD => Some(Instr(ORA, Abx, 4))
    case 0xE => Some(Instr(ASL, Abx, 7))
    case _ => None
  }

  /** Opcodes 0x20 to 0x2F. */
  function Row2(low: int): (r: Option<Instr>)
    ensures r.Some? ==> OperandFits(r.value.mnemonic, r.value.mode)
    ensures r.Some? ==> 2 <= r.value.cycles <= 7
  {
    match low
    case 0x0 => Some(Instr(JSR, Abs, 6))
    case 0x1 => Some(Instr(AND, Inx, 6))
    case 0x4 => Some(Instr(BIT, Zp, 3))
    case 0x5 => Some(Instr(AND, Zp, 3))
    case 0x6 => Some(Instr(ROL, Zp, 5))
    case 0x8 => Some(Instr(PLP, Imp, 4))
    case 0x9 => Some(Instr(AND, Imm, 2))
    case 0xA => Some(Instr(ROL, Acc, 2))
    case 0xC => Some(Instr(BIT, Abs, 4))
    case 0xD => Some(Instr(AND, Abs, 4))
    case 0xE => Some(Instr(ROL, Abs, 6))
    case _ => None
  }

  /** Opcodes 0x30 to 0x3F. */
  function Row3(low: int): (r: Option<Instr>)
    ensures r.Some? ==> OperandFits(r.value.mnemonic, r.value.mode)
    ensures r.Some? ==> 2 <= r.value.cycles <= 7
  {
    match low
    case 0x0 => Some(Instr(BMI, Zp, 2))
    case 0x1 => Some(Instr(AND, Iny, 5))
    case 0x5 => Some(Instr(AND, Zpx, 4))
    case 0x6 => Some(Instr(ROL, Zpx, 6))
    case 0x8 => Some(Instr(SEC, Imp, 2))
    case 0x9 => Some(Instr(AND, Aby, 4))
    case 0xD => Some(Instr(AND, Abx, 4))
    case 0xE => Some(Instr(ROL, Abx, 7))
    case _ => None
  }

  /** Opcodes 0x40 to 0x4F. */
  function Row4(low: int): (r: Option<Instr>)
    ensures r.Some? ==> OperandFits(r.value.mnemonic, r.value.mode)
    ensures r.Some? ==> 2 <= r.value.cycles <= 7
  {
    match low
    case 0x0 => Some(Instr(RTI, Imp, 6))
    case 0x1 => Some(Instr(EOR, Inx, 6))
    case 0x5 => Some(Instr(EOR, Zp, 3))
    case 0x6 => Some(Instr(LSR, Zp, 5))
    case 0x8 => Some(Instr(PHA, Imp, 3))
    case 0x9 => Some(Instr(EOR, Imm, 2))
    case 0xA => Some(Instr(LSR, Acc, 2))
    case 0xC => Some(Instr(JMP, Abs, 3))
    case 0xD => Some(Instr(EOR, Abs, 4))
    case 0xE => Some(Instr(LSR, Abs, 6))
    case _ => None
  }

  /** Opcodes 0x50 to 0x5F. */
  function Row5(low: int): (r: Option<Instr>)
    ensures r.Some? ==> OperandFits(r.value.mnemonic, r.value.mode)
    ensures r.Some? ==> 2 <= r.value.cycles <= 7
  {
    match low
    case 0x0 => Some(Instr(BVC, Zp, 2))
    case 0x1 => Some(Instr(EOR, Iny, 5))
    case 0x5 => Some(Instr(EOR, Zpx, 4))
    case 0x6 => Some(Instr(LSR, Zpx, 6))
    case 0x8 => Some(Instr(CLI, Imp, 2))
    case 0x9 => Some(Instr(EOR, Aby, 4))
    case 0xD => Some(Instr(EOR, Abx, 4))
    case 0xE => Some(Instr(LSR, Abx, 7))
    case _ => None
  }

  /** Opcodes 0x60 to 0x6F. */
  function Row6(low: int): (r: Option<Instr>)
    ensures r.Some? ==> OperandFits(r.value.mnemonic, r.value.mode)
    ensures r.Some? ==> 2 <= r.value.cycles <= 7
  {
    match low
    case 0x0 => Some(Instr(RTS, Imp, 6))
    case 0x1 => Some(Instr(ADC, Inx, 6))
    case 0x5 => Some(Instr(ADC, Zp, 3))
    case 0x6 => Some(Instr(ROR, Zp, 5))
    case 0x8 => Some(Instr(PLA, Imp, 4))
    case 0x9 => Some(Instr(ADC, Imm, 2))
    case 0xA => Some(Instr(ROR, Acc, 2))
    case 0xC => Some(Instr(JMP, Ind, 5))
    case 0xD => Some(Instr(ADC, Abs, 4))
    case 0xE => Some(Instr(ROR, Abs, 6))
    case _ => None
  }

  /** Opcodes 0x70 to 0x7F. */
  function Row7(low: int): (r: Option<Instr>)
    ensures r.Some? ==> OperandFits(r.value.mnemonic, r.value.mode)
    ensures r.Some? ==> 2 <= r.value.cycles <= 7
  {
    match low
    case 0x0 => Some(Instr(BVS, Zp, 2))
    case 0x1 => Some(Instr(ADC, Iny, 5))
    case 0x5 => Some(Instr(ADC, Zpx, 4))
    case 0x6 => Some(Instr(ROR, Zpx, 6))
    case 0x8 => Some(Instr(SEI, Imp, 2))
    case 0x9 => Some(Instr(ADC, Aby, 4))
    case 0xD => Some(Instr(ADC, Abx, 4))
    case 0xE => Some(Instr(ROR, Abx, 7))
    case _ => None
  }

  /** Opcodes 0x80 to 0x8F. */
  function Row8(low: int): (r: Option<Instr>)
    ensures r.Some? ==> OperandFits(r.value.mnemonic, r.value.mode)
    ensures r.Some? ==> 2 <= r.value.cycles <= 7
  {
    match low
    case 0x1 => Some(Instr(STA, Inx, 6))
    case 0x4 => Some(Instr(STY, Zp, 3))
    case 0x5 => Some(Instr(STA, Zp, 3))
    case 0x6 => Some(Instr(STX, Zp, 3))
    case 0x8 => Some(Instr(DEY, Imp, 2))
    case 0xA => Some(Instr(TXA, Imp, 2))
    case 0xC => Some(Instr(STY, Abs, 4))
    case 0xD => Some(Instr(STA, Abs, 4))
    case 0xE => Some(Instr(STX, Abs, 4))
    case _ => None
  }

  /** Opcodes 0x90 to 0x9F. */
  function Row9(low: int): (r: Option<Instr>)
    ensures r.Some? ==> OperandFits(r.value.mnemonic, r.value.mode)
    ensures r.Some? ==> 2 <= r.value.cycles <= 7
  {
    match low
    case 0x0 => Some(Instr(BCC, Zp, 2))
    case 0x1 => Some(Instr(STA, Iny, 6))
    case 0x4 => Some(Instr(STY, Zpx, 4))
    case 0x5 => Some(Instr(STA, Zpx, 4))
    case 0x6 => Some(Instr(STX, Zpy, 4))
    case 0x8 => Some(Instr(TYA, Imp, 2))
    case 0x9 => Some(Instr(STA, Aby, 5))
    case 0xA => Some(Instr(TXS, Imp, 2))
    case 0xD => Some(Instr(STA, Abx, 5))
    case _ => None
  }

  /** Opcodes 0xA0 to 0xAF. */
  function RowA(low: int): (r: Option<Instr>)
    ensures r.Some? ==> OperandFits(r.value.mnemonic, r.value.mode)
    ensures r.Some? ==> 2 <= r.value.cycles <= 7
  {
    match low
    case 0x0 => Some(Instr(LDY, Imm, 2))
    case 0x1 => Some(Instr(LDA, Inx, 6))
    case 0x2 => Some(Instr(LDX, Imm, 2))
    case 0x4 => Some(Instr(LDY, Zp, 3))
    case 0x5 => Some(Instr(LDA, Zp, 3))
    case 0x6 => Some(Instr(LDX, Zp, 3))
    case 0x8 => Some(Instr(TAY, Imp, 2))
    case 0x9 => Some(Instr(LDA, Imm, 2))
    case 0xA => Some(Instr(TAX, Imp, 2))
    case 0xC => Some(Instr(LDY, Abs, 4))
    case 0xD => Some(Instr(LDA, Abs, 4))
    case 0xE => Some(Instr(LDX, Abs, 4))
    case _ => None
  }

  /** Opcodes 0xB0 to 0xBF. */
  function RowB(low: int): (r: Option<Instr>)
    ensures r.Some? ==> OperandFits(r.value.mnemonic, r.value.mode)
    ensures r.Some? ==> 2 <= r.value.cycles <= 7
  {
    match low
    case 0x0 => Some(Instr(BCS, Zp, 2))
    case 0x1 => Some(Instr(LDA, Iny, 5))
    case 0x4 => Some(Instr(LDY, Zpx, 4))
    case 0x5 => Some(Instr(LDA, Zpx, 4))
    case 0x6 => Some(Instr(LDX, Zpy, 4))
    case 0x8 => Some(Instr(CLV, Imp, 2))
    case 0x9 => Some(Instr(LDA, Aby, 4))
    case 0xA => Some(Instr(TSX, Imp, 2))
    case 0xC => Some(Instr(LDY, Abx, 4))
    case 0xD => Some(Instr(LDA, Abx, 4))
    case 0xE => Some(Instr(LDX, Aby, 4))
    case _ => None
  }

  /** Opcodes 0xC0 to 0xCF. */
  function RowC(low: int): (r: Option<Instr>)
    ensures r.Some? ==> OperandFits(r.value.mnemonic, r.value.mode)
    ensures r.Some? ==> 2 <= r.value.cycles <= 7
  {
    match low
    case 0x0 => Some(Instr(CPY, Imm, 2))
    case 0x1 => Some(Instr(CMP, Inx, 6))
    case 0x4 => Some(Instr(CPY, Zp, 3))
    case 0x5 => Some(Instr(CMP, Zp, 3))
    case 0x6 => Some(Instr(DEC, Zp, 5))
    case 0x8 => Some(Instr(INY, Imp, 2))
    case 0x9 => Some(Instr(CMP, Imm, 2))
    case 0xA => Some(Instr(DEX, Imp, 2))
    case 0xC => Some(Instr(CPY, Abs, 4))
    case 0xD => Some(Instr(CMP, Abs, 4))
    case 0xE => Some(Instr(DEC, Abs, 6))
    case _ => None
  }

  /** Opcodes 0xD0 to 0xDF. */
  function RowD(low: int): (r: Option<Instr>)
    ensures r.Some? ==> OperandFits(r.value.mnemonic, r.value.mode)
    ensures r.Some? ==> 2 <= r.value.cycles <= 7
  {
    match low
    case 0x0 => Some(Instr(BNE, Zp, 2))
    case 0x1 => Some(Instr(CMP, Iny, 5))
    case 0x5 => Some(Instr(CMP, Zpx, 4))
    case 0x6 => Some(Instr(DEC, Zpx, 6))
    case 0x8 => Some(Instr(CLD, Imp, 2))
    case 0x9 => Some(Instr(CMP, Aby, 4))
    case 0xD => Some(Instr(CMP, Abx, 4))
    case 0xE => Some(Instr(DEC, Abx, 7))
    case _ => None
  }

  /** Opcodes 0xE0 to 0xEF. */
  function RowE(low: int): (r: Option<Instr>)
    ensures r.Some? ==> OperandFits(r.value.mnemonic, r.value.mode)
    ensures r.Some? ==> 2 <= r.value.cycles <= 7
  {
    match low
    case 0x0 => Some(Instr(CPX, Imm, 2))
    case 0x1 => Some(Instr(SBC, Inx, 6))
    case 0x4 => Some(Instr(CPX, Zp, 3))
    case 0x5 => Some(Instr(SBC, Zp, 3))
    case 0x6 => Some(Instr(INC, Zp, 5))
    case 0x8 => Some(Instr(INX, Imp, 2))
    case 0x9 => Some(Instr(SBC, Imm, 2))
    case 0xA => Some(Instr(NOP, Imp, 2))
    case 0xC => Some(Instr(CPX, Abs, 4))
    case 0xD => Some(Instr(SBC, Abx, 4))
    case 0xE => Some(Instr(INC, Abs, 6))
    case _ => None
  }

  /** Opcodes 0xF0 to 0xFF. */
  function RowF(low: int): (r: Option<Instr>)
    ensures r.Some? ==> OperandFits(r.value.mnemonic, r.value.mode)
    ensures r.Some? ==> 2 <= r.value.cycles <= 7
  {
    match low
    case 0x0 => Some(Instr(BEQ, Zp, 2))
    case 0x1 => Some(Instr(SBC, Iny, 5))
    case 0x5 => Some(Instr(SBC, Zpx, 4))
    case 0x6 => Some(Instr(INC, Zpx, 6))
    case 0x8 => Some(Instr(SED, Imp, 2))
    case 0x9 => Some(Instr(SBC, Aby, 4))
    case 0xD => Some(Instr(SBC, Abs, 4))
    case 0xE => Some(Instr(INC, Abx, 7))
    case _ => None
  }

  // ================================================================ operands

  /** The address the arm's resolver yields: zeroPage(), zeroPage(reg), absolute(),
      absolute(reg), indirectX() or indirectY(). Resolving consumes the operand bytes and
      changes nothing else. */
  function Resolve(s: State, mode: Mode): (r: (State, Word))
    requires s.Valid() && IsMemoryMode(mode)
    ensures r.0.Valid() && r.0 == s.(pc := ToWord(s.pc + OperandBytes(mode)))
  {
    match mode
    case Zp => ZeroPageAddr(s, 0)
    case Zpx => ZeroPageAddr(s, s.x)
    case Zpy => ZeroPageAddr(s, s.y)
    case Abs => AbsoluteAddr(s, 0)
    case Abx => AbsoluteAddr(s, s.x)
    case Aby => AbsoluteAddr(s, s.y)
    case Inx => IndirectXAddr(s)
    case Iny => IndirectYAddr(s)
  }

  /** The byte a reading arm consumes: the next byte for Imm, otherwise the byte at the resolved
      address. The (zp),Y arms of ORA, AND, EOR and CMP call readIndirectY, which resolves through
      indirectX; LDA's (zp),Y arm calls indirectY itself. */
  function Operand(s: State, m: Mnemonic, mode: Mode): (r: (State, Byte))
    requires s.Valid() && IsValueMode(mode)
    ensures r.0.Valid() && r.0 == s.(pc := ToWord(s.pc + OperandBytes(mode)))
  {
    if mode.Imm? then NextByte(s)
    else if mode.Iny? && !m.LDA? then Fetch(IndirectXAddr(s))
    else Fetch(Resolve(s, mode))
  }

  /** The int the ADC and SBC arms pass to doADC / doSBC: the immediate byte; for both indirect
      modes the byte read through indirectX (readIndirectX, readIndirectY); for the zero-page and
      absolute modes the resolved ADDRESS itself, since those arms call zeroPage() and
      absolute() rather than readZeroPage() and readAbsolute(). */
  function ArithOperand(s: State, mode: Mode): (r: (State, int))
    requires s.Valid() && IsValueMode(mode)
    ensures r.0.Valid() && r.0 == s.(pc := ToWord(s.pc + OperandBytes(mode)))
  {
    if mode.Imm? then
      var (t, v) := NextByte(s); (t, v as int)
    else if mode.Inx? || mode.Iny? then
      var (t, v) := Fetch(IndirectXAddr(s)); (t, v as int)
    else
      var (t, addr) := Resolve(s, mode); (t, addr as int)
  }

  // ================================================================ the handlers, by family

  /** What every handler keeps: the 64 KiB of RAM and the timing fields, which only execute()
      updates. */
  predicate Preserves(s: State, t: State)
  {
    t.Valid() && t.executionTime == s.executionTime && t.waitCycles == s.waitCycles
  }

  predicate IsLoad(m: Mnemonic) { m.LDA? || m.LDX? || m.LDY? }

  /** The register a load, store or compare works on. */
  function Target(m: Mnemonic): Reg
  {
    if m.LDA? || m.STA? || m.CMP? then A
    else if m.LDX? || m.STX? || m.CPX? then X
    else Y
  }

  /** LDA, LDX, LDY: the register takes the operand, with Zero and Negative. */
  function Load(s: State, m: Mnemonic, mode: Mode): (t: State)
    requires s.Valid() && IsLoad(m) && IsValueMode(mode)
    ensures Preserves(s, t)
    ensures t.pc == ToWord(s.pc + OperandBytes(mode))
  {
    var (t, v) := Operand(s, m, mode);
    WithReg(t, Target(m), v)
  }

  predicate IsStore(m: Mnemonic) { m.STA? || m.STX? || m.STY? }

  /** STA, STX, STY: writeRAM(address, register). */
  function Store(s: State, m: Mnemonic, mode: Mode): (t: State)
    requires s.Valid() && IsStore(m) && IsMemoryMode(mode)
    ensures Preserves(s, t)
    ensures t.pc == ToWord(s.pc + OperandBytes(mode))
  {
    var (t, addr) := Resolve(s, mode);
    Write(t, addr, RegValue(t, Target(m)))
  }

  predicate IsTransfer(m: Mnemonic)
  {
    m.TAX? || m.TAY? || m.TXA? || m.TYA? || m.TSX? || m.TXS?
  }

  /** TAX, TAY, TXA, TYA, TSX, TXS. TSX loads SP into Y, not X; TXS sets SP and no flag. */
  function Transfer(s: State, m: Mnemonic): (t: State)
    requires s.Valid() && IsTransfer(m)
    ensures Preserves(s, t)
    ensures t.pc == s.pc
  {
    match m
    case TAX => WithReg(s, X, s.a)
    case TAY => WithReg(s, Y, s.a)
    case TXA => WithReg(s, A, s.x)
    case TYA => WithReg(s, A, s.y)
    case TSX => WithReg(s, Y, s.sp)
    case TXS => s.(sp := s.x)
  }

  /** doADC: the value plus the carry, truncated to a byte, is added to A. */
  function Adc(s: State, value: int): (t: State)
    requires s.Valid()
    ensures Preserves(s, t)
  {
    var num := ToByte(value + (if GetFlag(s.flags, Carry) then 1 else 0));
    s.(flags := AdcFlags(s.flags, s.a, num), a := ToByte(s.a + num))
  }

  /** doSBC: the value plus the borrow (1 when Carry is clear), truncated to a byte, is taken
      from A. */
  function Sbc(s: State, value: int): (t: State)
    requires s.Valid()
    ensures Preserves(s, t)
  {
    var num := ToByte(value + (if GetFlag(s.flags, Carry) then 0 else 1));
    s.(flags := SbcFlags(s.flags, s.a, num), a := ToByte(s.a - num))
  }

  /** The ADC and SBC arms. */
  function Arith(s: State, m: Mnemonic, mode: Mode): (t: State)
    requires s.Valid() && (m.ADC? || m.SBC?) && IsValueMode(mode)
    ensures Preserves(s, t)
    ensures t.pc == ToWord(s.pc + OperandBytes(mode))
  {
    var (t, v) := ArithOperand(s, mode);
    if m.ADC? then Adc(t, v) else Sbc(t, v)
  }

  /** INC and DEC at an address: writeRAM_WithFlags(addr, readRAM(addr) + delta). (The Java adds
      to the signed byte; the low eight bits, the only ones kept, are the same.) */
  function IncDecAt(s: State, addr: Word, delta: int): (t: State)
    requires s.Valid()
    ensures Preserves(s, t)
  {
    WriteWithFlags(s, addr, s.ram[addr] + delta)
  }

  /** The INC (delta 1) and DEC (delta -1) arms. */
  function IncDec(s: State, m: Mnemonic, mode: Mode): (t: State)
    requires s.Valid() && (m.INC? || m.DEC?) && IsMemoryMode(mode)
    ensures Preserves(s, t)
    ensures t.pc == ToWord(s.pc + OperandBytes(mode))
  {
    var (t, addr) := Resolve(s, mode);
    IncDecAt(t, addr, if m.INC? then 1 else -1)
  }

  /** INX, INY, DEX, DEY: the register, plus or minus one as a byte, with Zero and Negative. */
  function Count(s: State, m: Mnemonic): (t: State)
    requires s.Valid() && (m.INX? || m.INY? || m.DEX? || m.DEY?)
    ensures Preserves(s, t)
    ensures t.pc == s.pc
  {
    match m
    case INX => WithReg(s, X, ToByte(s.x + 1))
    case INY => WithReg(s, Y, ToByte(s.y + 1))
    case DEX => WithReg(s, X, ToByte(s.x - 1))
    case DEY => WithReg(s, Y, ToByte(s.y - 1))
  }

  /** ORA, AND, EOR: A takes A combined bitwise with the operand, with Zero and Negative. */
  function Bitwise(s: State, m: Mnemonic, mode: Mode): (t: State)
    requires s.Valid() && (m.ORA? || m.AND? || m.EOR?) && IsValueMode(mode)
    ensures Preserves(s, t)
    ensures t.pc == ToWord(s.pc + OperandBytes(mode))
  {
    var (t, v) := Operand(s, m, mode);
    var r := if m.ORA? then Or(t.a, v) else if m.AND? then And(t.a, v) else Xor(t.a, v);
    WithReg(t, A, r)
  }

  /** ASL on a byte: the result and the new carry (the old bit 7). */
  function AslValue(v: Byte): (Byte, bool)
  {
    (ToByte(2 * v), v >= 0x80)
  }

  /** LSR on a byte: Java's `>>` on a signed byte is an arithmetic shift, so the result keeps
      bit 7; the new carry is the old bit 0. */
  function LsrValue(v: Byte): (Byte, bool)
  {
    (ToByte(Signed(v) / 2), v % 2 == 1)
  }

  /** ROL on a byte: shift left, the old carry enters bit 0; the new carry is the old bit 7. */
  function RolValue(v: Byte, carry: bool): (Byte, bool)
  {
    (ToByte(2 * v + (if carry then 1 else 0)), v >= 0x80)
  }

  /** ROR on a byte: shift right, the old carry enters bit 7; the new carry is the old bit 0. */
  function RorValue(v: Byte, carry: bool): (Byte, bool)
  {
    (v / 2 + (if carry then 0x80 else 0), v % 2 == 1)
  }

  function ShiftValue(m: Mnemonic, v: Byte, carry: bool): (Byte, bool)
    requires IsShift(m)
  {
    match m
    case ASL => AslValue(v)
    case LSR => LsrValue(v)
    case ROL => RolValue(v, carry)
    case ROR => RorValue(v, carry)
  }

  /** doASL, doLSR, doROL, doROR at an address: set Carry, write the result, then set Zero and
      Negative from it. */
  function ShiftAt(s: State, m: Mnemonic, addr: Word): (t: State)
    requires s.Valid() && IsShift(m)
    ensures Preserves(s, t)
  {
    var (res, c) := ShiftValue(m, s.ram[addr], GetFlag(s.flags, Carry));
    var t := Write(s.(flags := WithFlag(s.flags, Carry, c)), addr, res);
    t.(flags := ResultFlags(t.flags, res))
  }

  /** The accumulator forms: set Carry, then setRegA(result). */
  function ShiftAccumulator(s: State, m: Mnemonic): (t: State)
    requires s.Valid() && IsShift(m)
    ensures Preserves(s, t)
  {
    var (res, c) := ShiftValue(m, s.a, GetFlag(s.flags, Carry));
    WithReg(s.(flags := WithFlag(s.flags, Carry, c)), A, res)
  }

  /** The ASL, LSR, ROL and ROR arms. */
  function Shift(s: State, m: Mnemonic, mode: Mode): (t: State)
    requires s.Valid() && IsShift(m) && (mode.Acc? || IsMemoryMode(mode))
    ensures Preserves(s, t)
    ensures t.pc == ToWord(s.pc + OperandBytes(mode))
  {
    if mode.Acc? then ShiftAccumulator(s, m)
    else
      var (t, addr) := Resolve(s, mode);
      ShiftAt(t, m, addr)
  }

  /** PHA, PLA (with Zero and Negative), PHP, PLP (the popped byte becomes the status byte). */
  function StackOp(s: State, m: Mnemonic): (t: State)
    requires s.Valid() && (m.PHA? || m.PLA? || m.PHP? || m.PLP?)
    ensures Preserves(s, t)
    ensures t.pc == s.pc
  {
    match m
    case PHA => Push(s, s.a)
    case PLA => var (t, v) := Pop(s); WithReg(t, A, v)
    case PHP => Push(s, s.flags as int)
    case PLP => var (t, v) := Pop(s); t.(flags := v as bv8)
  }

  /** CMP, CPX, CPY: setFlagsCMP(register, operand). */
  function Compare(s: State, m: Mnemonic, mode: Mode): (t: State)
    requires s.Valid() && (m.CMP? || m.CPX? || m.CPY?) && IsValueMode(mode)
    ensures Preserves(s, t)
    ensures t.pc == ToWord(s.pc + OperandBytes(mode))
  {
    var (t, v) := Operand(s, m, mode);
    t.(flags := CmpFlags(t.flags, RegValue(t, Target(m)), v))
  }

  /** BIT: Zero iff A AND the byte is 0; Overflow and Negative are the byte's bits 6 and 7. */
  function BitTest(s: State, mode: Mode): (t: State)
    requires s.Valid() && IsMemoryMode(mode)
    ensures Preserves(s, t)
    ensures t.pc == ToWord(s.pc + OperandBytes(mode))
  {
    var (t, v) := Fetch(Resolve(s, mode));
    var f := WithFlag(t.flags, Zero, And(t.a, v) == 0);
    var f := WithFlag(f, Overflow, v % 0x80 >= 0x40);
    t.(flags := WithFlag(f, Negative, v >= 0x80))
  }

  /** JMP absolute: PC = target - 1, as executeInstruction adds 1 afterwards. */
  function JumpAbsolute(s: State): (t: State)
    requires s.Valid()
    ensures Preserves(s, t)
  {
    var (t, target) := AbsoluteAddr(s, 0);
    t.(pc := ToWord(target - 1))
  }

  /** JMP indirect: ONE operand byte names a zero-page pointer, whose two bytes go to
      bytesToShort as signed bytes; no 1 is subtracted. */
  function JumpIndirect(s: State): (t: State)
    requires s.Valid()
    ensures Preserves(s, t)
  {
    var (t, zp) := NextByte(s);
    t.(pc := BytesToShort(Signed(t.ram[zp]), Signed(t.ram[zp + 1])))
  }

  /** The two JMP arms. */
  function Jump(s: State, mode: Mode): (t: State)
    requires s.Valid() && (mode.Abs? || mode.Ind?)
    ensures Preserves(s, t)
  {
    if mode.Abs? then JumpAbsolute(s) else JumpIndirect(s)
  }

  /** JSR: pushPC(2), then PC = target - 1. */
  function JumpSubroutine(s: State): (t: State)
    requires s.Valid()
    ensures Preserves(s, t)
  {
    var t := PushAddress(s, 2);
    var (u, target) := NextWord(t);
    u.(pc := ToWord(target - 1))
  }

  /** RTI: the status byte is popped, then PC. */
  function ReturnFromInterrupt(s: State): (t: State)
    requires s.Valid()
    ensures Preserves(s, t)
  {
    var (t, v) := Pop(s);
    PopAddress(t.(flags := v as bv8))
  }

  /** BRK: pushPC(0), push the status byte, set Break and halt. */
  function Interrupt(s: State): (t: State)
    requires s.Valid()
    ensures Preserves(s, t)
  {
    var t := PushAddress(s, 0);
    var u := Push(t, t.flags as int);
    u.(flags := WithFlag(u.flags, Break, true), halt := true)
  }

  /** doBranch: the displacement byte is read either way; a taken branch adds it, signed, to PC
      and costs 3 cycles, otherwise 2. */
  function Branch(s: State, condition: bool): (r: (State, int))
    requires s.Valid()
    ensures Preserves(s, r.0)
    ensures r.1 == 2 || r.1 == 3
  {
    var (t, rel) := NextByte(s);
    if condition then (t.(pc := ToWord(t.pc + Signed(rel))), 3) else (t, 2)
  }

  /** The condition each branch tests. */
  function BranchTaken(flags: bv8, m: Mnemonic): bool
    requires IsBranch(m)
  {
    match m
    case BEQ => GetFlag(flags, Zero)
    case BNE => !GetFlag(flags, Zero)
    case BMI => GetFlag(flags, Negative)
    case BPL => !GetFlag(flags, Negative)
    case BCS => GetFlag(flags, Carry)
    case BCC => !GetFlag(flags, Carry)
    case BVS => GetFlag(flags, Overflow)
    case BVC => !GetFlag(flags, Overflow)
  }

  predicate IsFlagOp(m: Mnemonic)
  {
    (m.SEC? || m.SED? || m.SEI? || m.CLC? || m.CLD? || m.CLI? || m.CLV?)
  }

  /** The flag each flag instruction sets or clears, and to what. */
  function FlagOp(m: Mnemonic): (Flag, bool)
    requires IsFlagOp(m)
  {
    match m
    case SEC => (Carry, true)
    case SED => (DecimalMode, true)
    case SEI => (InterruptDisable, true)
    case CLC => (Carry, false)
    case CLD => (DecimalMode, false)
    case CLI => (InterruptDisable, false)
    case CLV => (Overflow, false)
  }

  /** The instructions that move a byte between registers, memory and the stack. */
  predicate IsMove(m: Mnemonic)
  {
    IsLoad(m) || IsStore(m) || IsTransfer(m) || m.PHA? || m.PLA? || m.PHP? || m.PLP?
  }

  /** The instructions that compute on a byte: arithmetic, logic, shifts, compares. */
  predicate IsCompute(m: Mnemonic)
  {
    m.ADC? || m.SBC? || m.INC? || m.DEC? || m.INX? || m.INY? || m.DEX? || m.DEY?
    || m.ORA? || m.AND? || m.EOR? || IsShift(m) || m.CMP? || m.CPX? || m.CPY? || m.BIT?
  }

  /** The instructions that set PC themselves: jumps, calls, returns, BRK and the branches. */
  predicate IsControl(m: Mnemonic)
  {
    m.JMP? || m.JSR? || m.RTS? || m.RTI? || m.BRK? || IsBranch(m)
  }

  /** The arms of the moving instructions. PC moves past the operand and no further. */
  function Move(s: State, m: Mnemonic, mode: Mode): (t: State)
    requires s.Valid() && IsMove(m) && OperandFits(m, mode)
    ensures Preserves(s, t)
    ensures t.pc == ToWord(s.pc + OperandBytes(mode))
  {
    if IsLoad(m) then Load(s, m, mode)
    else if IsStore(m) then Store(s, m, mode)
    else if IsTransfer(m) then Transfer(s, m)
    else StackOp(s, m)
  }

  /** The arms of the computing instructions. PC moves past the operand and no further. */
  function Compute(s: State, m: Mnemonic, mode: Mode): (t: State)
    requires s.Valid() && IsCompute(m) && OperandFits(m, mode)
    ensures Preserves(s, t)
    ensures t.pc == ToWord(s.pc + OperandBytes(mode))
  {
    if m.ADC? || m.SBC? then Arith(s, m, mode)
    else if m.INC? || m.DEC? then IncDec(s, m, mode)
    else if m.INX? || m.INY? || m.DEX? || m.DEY? then Count(s, m)
    else if m.ORA? || m.AND? || m.EOR? then Bitwise(s, m, mode)
    else if IsShift(m) then Shift(s, m, mode)
    else if m.CMP? || m.CPX? || m.CPY? then Compare(s, m, mode)
    else BitTest(s, mode)
  }

  /** The arms that set PC: the state and the cycles (a branch returns 2 or 3). */
  function Control(s: State, ins: Instr): (r: (State, int))
    requires s.Valid() && IsControl(ins.mnemonic) && OperandFits(ins.mnemonic, ins.mode)
    ensures Preserves(s, r.0)
    ensures r.1 == ins.cycles || (IsBranch(ins.mnemonic) && (r.1 == 2 || r.1 == 3))
  {
    var m := ins.mnemonic;
    if m.JMP? then (Jump(s, ins.mode), ins.cycles)
    else if m.JSR? then (JumpSubroutine(s), ins.cycles)
    else if m.RTS? then (PopAddress(s), ins.cycles)
    else if m.RTI? then (ReturnFromInterrupt(s), ins.cycles)
    else if m.BRK? then (Interrupt(s), ins.cycles)
    else Branch(s, BranchTaken(s.flags, m))
  }

  /** The flag instructions set or clear their flag; NOP does nothing. */
  function FlagOrNop(s: State, m: Mnemonic): (t: State)
    requires s.Valid()
    ensures Preserves(s, t) && t.pc == s.pc
  {
    if IsFlagOp(m) then
      var (f, on) := FlagOp(m);
      s.(flags := WithFlag(s.flags, f, on))
    else s
  }

  /** What the arm of an instruction does, and the cycles it returns. No handler touches the
      timing fields; every one but a taken branch returns the count in the table; every
      instruction but those that set PC themselves moves PC past its operand bytes. */
  function Semantics(s: State, ins: Instr): (r: (State, int))
    requires s.Valid() && OperandFits(ins.mnemonic, ins.mode)
    ensures Preserves(s, r.0)
    ensures r.1 == ins.cycles || (IsBranch(ins.mnemonic) && (r.1 == 2 || r.1 == 3))
    ensures !IsControl(ins.mnemonic) ==> r.0.pc == ToWord(s.pc + OperandBytes(ins.mode))
  {
    var m := ins.mnemonic;
    if IsMove(m) then (Move(s, m, ins.mode), ins.cycles)
    else if IsCompute(m) then (Compute(s, m, ins.mode), ins.cycles)
    else if IsControl(m) then Control(s, ins)
    else (FlagOrNop(s, m), ins.cycles)
  }

  /** getInstruction(opcode).execute(cpu): the arm's effect and the cycles it returns; the
      default arm halts and returns 1. */
  function Effect(s: State, op: Byte): (r: (State, int))
    requires s.Valid()
    ensures Preserves(s, r.0)
    ensures 1 <= r.1 <= 7
  {
    match Decode(op)
    case None => (s.(halt := true), 1)
    case Some(ins) => Semantics(s, ins)
  }

  // ================================================================ the handlers on a Cpu

  /** doBranch */
  method DoBranch(cpu: Cpu, condition: bool) returns (cycles: int)
    requires cpu.Valid()
    modifies cpu
    ensures (cpu.Snapshot(), cycles) == Branch(old(cpu.Snapshot()), condition)
  {
    var rel := cpu.NextBytePC();
    if condition {
      cpu.pc := ToWord(cpu.pc + Signed(rel));
      return 3;
    }
    return 2;
  }

  /** doROL */
  method DoRol(cpu: Cpu, addr: Word)
    requires cpu.Valid()
    modifies cpu, cpu.ram
    ensures cpu.Snapshot() == ShiftAt(old(cpu.Snapshot()), ROL, addr)
  {
    var v := cpu.ReadRam(addr);
    var result := ToByte(2 * (v as int) + (if cpu.HasFlag(Carry) then 1 else 0));
    cpu.SetFlag(Carry, v >= 0x80);
    cpu.WriteRam(addr, result);
    cpu.SetFlagsResult(result);
  }

  /** doROR */
  method DoRor(cpu: Cpu, addr: Word)
    requires cpu.Valid()
    modifies cpu, cpu.ram
    ensures cpu.Snapshot() == ShiftAt(old(cpu.Snapshot()), ROR, addr)
  {
    var v := cpu.ReadRam(addr);
    var result := v / 2 + (if cpu.HasFlag(Carry) then 0x80 else 0);
    cpu.SetFlag(Carry, v % 2 == 1);
    cpu.WriteRam(addr, result);
    cpu.SetFlagsResult(result);
  }

  /** doLSR */
  method DoLsr(cpu: Cpu, addr: Word)
    requires cpu.Valid()
    modifies cpu, cpu.ram
    ensures cpu.Snapshot() == ShiftAt(old(cpu.Snapshot()), LSR, addr)
  {
    var v := cpu.ReadRam(addr);
    var result := ToByte(Signed(v) / 2);
    cpu.SetFlag(Carry, v % 2 == 1);
    cpu.WriteRam(addr, result);
    cpu.SetFlagsResult(result);
  }

  /** doASL */
  method DoAsl(cpu: Cpu, addr: Word)
    requires cpu.Valid()
    modifies cpu, cpu.ram
    ensures cpu.Snapshot() == ShiftAt(old(cpu.Snapshot()), ASL, addr)
  {
    var v := cpu.ReadRam(addr);
    var result := ToByte(2 * (v as int));
    cpu.SetFlag(Carry, v >= 0x80);
    cpu.WriteRam(addr, result);
    cpu.SetFlagsResult(result);
  }

  /** doADC */
  method DoAdc(cpu: Cpu, value: int)
    requires cpu.Valid()
    modifies cpu
    ensures cpu.Snapshot() == Adc(old(cpu.Snapshot()), value)
  {
    var num := ToByte(value + (if cpu.HasFlag(Carry) then 1 else 0));
    cpu.SetFlagsAdc(cpu.a, num);
    cpu.a := ToByte(cpu.a + num);
  }

  /** doSBC */
  method DoSbc(cpu: Cpu, value: int)
    requires cpu.Valid()
    modifies cpu
    ensures cpu.Snapshot() == Sbc(old(cpu.Snapshot()), value)
  {
    var num := ToByte(value + (if cpu.HasFlag(Carry) then 0 else 1));
    cpu.SetFlagsSbc(cpu.a, num);
    cpu.a := ToByte(cpu.a - num);
  }

  /** The resolver an arm calls for its mode. */
  method ResolveAddress(cpu: Cpu, mode: Mode) returns (addr: Word)
    requires cpu.Valid() && IsMemoryMode(mode)
    modifies cpu
    ensures (cpu.Snapshot(), addr) == Resolve(old(cpu.Snapshot()), mode)
  {
    match mode {
      case Zp => addr := cpu.ZeroPage(0);
      case Zpx => addr := cpu.ZeroPage(cpu.x);
      case Zpy => addr := cpu.ZeroPage(cpu.y);
      case Abs => addr := cpu.Absolute(0);
      case Abx => addr := cpu.Absolute(cpu.x);
      case Aby => addr := cpu.Absolute(cpu.y);
      case Inx => addr := cpu.IndirectX();
      case Iny => addr := cpu.IndirectY();
    }
  }

  /** The value a reading arm fetches: nextBytePC(), readZeroPage(...), readAbsolute(...),
      readIndirectX(), readIndirectY() or readRAM(indirectY()). */
  method ReadOperand(cpu: Cpu, m: Mnemonic, mode: Mode) returns (v: Byte)
    requires cpu.Valid() && IsValueMode(mode)
    modifies cpu
    ensures (cpu.Snapshot(), v) == Operand(old(cpu.Snapshot()), m, mode)
  {
    if mode.Imm? {
      v := cpu.NextBytePC();
    } else if mode.Iny? && !m.LDA? {
      v := cpu.ReadIndirectY();
    } else {
      var addr := ResolveAddress(cpu, mode);
      v := cpu.ReadRam(addr);
    }
  }

  /** The value the ADC and SBC arms hand to doADC / doSBC. */
  method ArithValue(cpu: Cpu, mode: Mode) returns (v: int)
    requires cpu.Valid() && IsValueMode(mode)
    modifies cpu
    ensures (cpu.Snapshot(), v) == ArithOperand(old(cpu.Snapshot()), mode)
  {
    if mode.Imm? {
      v := cpu.NextBytePC();
    } else if mode.Inx? {
      v := cpu.ReadIndirectX();
    } else if mode.Iny? {
      v := cpu.ReadIndirectY();
    } else {
      v := ResolveAddress(cpu, mode);
    }
  }

  /** The value of a register of the machine. */
  function RegOf(cpu: Cpu, r: Reg): (v: Byte)
    reads cpu
    requires cpu.Valid()
    ensures v == RegValue(cpu.Snapshot(), r)
  {
    match r
    case A => cpu.a
    case X => cpu.x
    case Y => cpu.y
  }

  method DoLoad(cpu: Cpu, m: Mnemonic, mode: Mode)
    requires cpu.Valid() && IsLoad(m) && IsValueMode(mode)
    modifies cpu
    ensures cpu.Snapshot() == Load(old(cpu.Snapshot()), m, mode)
  {
    var v := ReadOperand(cpu, m, mode);
    cpu.SetReg(Target(m), v);
  }

  method DoStore(cpu: Cpu, m: Mnemonic, mode: Mode)
    requires cpu.Valid() && IsStore(m) && IsMemoryMode(mode)
    modifies cpu, cpu.ram
    ensures cpu.Snapshot() == Store(old(cpu.Snapshot()), m, mode)
  {
    var addr := ResolveAddress(cpu, mode);
    cpu.WriteRam(addr, RegOf(cpu, Target(m)));
  }

  method DoTransfer(cpu: Cpu, m: Mnemonic)
    requires cpu.Valid() && IsTransfer(m)
    modifies cpu
    ensures cpu.Snapshot() == Transfer(old(cpu.Snapshot()), m)
  {
    match m {
      case TAX => cpu.SetReg(X, cpu.a);
      case TAY => cpu.SetReg(Y, cpu.a);
      case TXA => cpu.SetReg(A, cpu.x);
      case TYA => cpu.SetReg(A, cpu.y);
      case TSX => cpu.SetReg(Y, cpu.sp);
      case TXS => cpu.sp := cpu.x;
    }
  }

  method DoArith(cpu: Cpu, m: Mnemonic, mode: Mode)
    requires cpu.Valid() && (m.ADC? || m.SBC?) && IsValueMode(mode)
    modifies cpu
    ensures cpu.Snapshot() == Arith(old(cpu.Snapshot()), m, mode)
  {
    var v := ArithValue(cpu, mode);
    if m.ADC? {
      DoAdc(cpu, v);
    } else {
      DoSbc(cpu, v);
    }
  }

  /** writeRAM_WithFlags(addr, readRAM(addr) + delta) */
  method IncDecRam(cpu: Cpu, addr: Word, delta: int)
    requires cpu.Valid()
    modifies cpu, cpu.ram
    ensures cpu.Snapshot() == IncDecAt(old(cpu.Snapshot()), addr, delta)
  {
    var v := cpu.ReadRam(addr);
    cpu.WriteRamWithFlags(addr, v as int + delta);
  }

  method DoIncDec(cpu: Cpu, m: Mnemonic, mode: Mode)
    requires cpu.Valid() && (m.INC? || m.DEC?) && IsMemoryMode(mode)
    modifies cpu, cpu.ram
    ensures cpu.Snapshot() == IncDec(old(cpu.Snapshot()), m, mode)
  {
    var addr := ResolveAddress(cpu, mode);
    IncDecRam(cpu, addr, if m.INC? then 1 else -1);
  }

  method DoCount(cpu: Cpu, m: Mnemonic)
    requires cpu.Valid() && (m.INX? || m.INY? || m.DEX? || m.DEY?)
    modifies cpu
    ensures cpu.Snapshot() == Count(old(cpu.Snapshot()), m)
  {
    match m {
      case INX => cpu.SetReg(X, ToByte(cpu.x + 1));
      case INY => cpu.SetReg(Y, ToByte(cpu.y + 1));
      case DEX => cpu.SetReg(X, ToByte(cpu.x - 1));
      case DEY => cpu.SetReg(Y, ToByte(cpu.y - 1));
    }
  }

  method DoBitwise(cpu: Cpu, m: Mnemonic, mode: Mode)
    requires cpu.Valid() && (m.ORA? || m.AND? || m.EOR?) && IsValueMode(mode)
    modifies cpu
    ensures cpu.Snapshot() == Bitwise(old(cpu.Snapshot()), m, mode)
  {
    var v := ReadOperand(cpu, m, mode);
    var r := if m.ORA? then Or(cpu.a, v) else if m.AND? then And(cpu.a, v) else Xor(cpu.a, v);
    cpu.SetReg(A, r);
  }

  /** The accumulator forms of LSR, ASL, ROL and ROR. */
  method ShiftA(cpu: Cpu, m: Mnemonic)
    requires cpu.Valid() && IsShift(m)
    modifies cpu
    ensures cpu.Snapshot() == ShiftAccumulator(old(cpu.Snapshot()), m)
  {
    var v := cpu.a;
    var carry := cpu.HasFlag(Carry);
    match m {
      case ASL =>
        cpu.SetFlag(Carry, v >= 0x80);
        cpu.SetReg(A, ToByte(2 * (v as int)));
      case LSR =>
        cpu.SetFlag(Carry, v % 2 == 1);
        cpu.SetReg(A, ToByte(Signed(v) / 2));
      case ROL =>
        cpu.SetFlag(Carry, v >= 0x80);
        cpu.SetReg(A, ToByte(2 * (v as int) + (if carry then 1 else 0)));
      case ROR =>
        cpu.SetFlag(Carry, v % 2 == 1);
        cpu.SetReg(A, v / 2 + (if carry then 0x80 else 0));
    }
  }

  method DoShift(cpu: Cpu, m: Mnemonic, mode: Mode)
    requires cpu.Valid() && IsShift(m) && (mode.Acc? || IsMemoryMode(mode))
    modifies cpu, cpu.ram
    ensures cpu.Snapshot() == Shift(old(cpu.Snapshot()), m, mode)
  {
    if mode.Acc? {
      ShiftA(cpu, m);
    } else {
      var addr := ResolveAddress(cpu, mode);
      ShiftRam(cpu, m, addr);
    }
  }

  /** The memory forms: doASL, doLSR, doROL or doROR at the resolved address. */
  method ShiftRam(cpu: Cpu, m: Mnemonic, addr: Word)
    requires cpu.Valid() && IsShift(m)
    modifies cpu, cpu.ram
    ensures cpu.Snapshot() == ShiftAt(old(cpu.Snapshot()), m, addr)
  {
    match m {
      case ASL => DoAsl(cpu, addr);
      case LSR => DoLsr(cpu, addr);
      case ROL => DoRol(cpu, addr);
      case ROR => DoRor(cpu, addr);
    }
  }

  method DoStack(cpu: Cpu, m: Mnemonic)
    requires cpu.Valid() && (m.PHA? || m.PLA? || m.PHP? || m.PLP?)
    modifies cpu, cpu.ram
    ensures cpu.Snapshot() == StackOp(old(cpu.Snapshot()), m)
  {
    match m {
      case PHA => cpu.StackPush(cpu.a);
      case PLA =>
        var v := cpu.StackPop();
        cpu.SetReg(A, v);
      case PHP => cpu.StackPush(cpu.flags as int);
      case PLP =>
        var v := cpu.StackPop();
        cpu.flags := v as bv8;
    }
  }

  method DoCompare(cpu: Cpu, m: Mnemonic, mode: Mode)
    requires cpu.Valid() && (m.CMP? || m.CPX? || m.CPY?) && IsValueMode(mode)
    modifies cpu
    ensures cpu.Snapshot() == Compare(old(cpu.Snapshot()), m, mode)
  {
    var v := ReadOperand(cpu, m, mode);
    cpu.SetFlagsCmp(RegOf(cpu, Target(m)), v);
  }

  method DoBit(cpu: Cpu, mode: Mode)
    requires cpu.Valid() && IsMemoryMode(mode)
    modifies cpu
    ensures cpu.Snapshot() == BitTest(old(cpu.Snapshot()), mode)
  {
    var addr := ResolveAddress(cpu, mode);
    var v := cpu.ReadRam(addr);
    cpu.SetFlag(Zero, And(cpu.a, v) == 0);
    cpu.SetFlag(Overflow, v % 0x80 >= 0x40);
    cpu.SetFlag(Negative, v >= 0x80);
  }

  method DoJump(cpu: Cpu, mode: Mode)
    requires cpu.Valid() && (mode.Abs? || mode.Ind?)
    modifies cpu
    ensures cpu.Snapshot() == Jump(old(cpu.Snapshot()), mode)
  {
    if mode.Abs? {
      JumpAbsoluteArm(cpu);
    } else {
      JumpIndirectArm(cpu);
    }
  }

  method JumpAbsoluteArm(cpu: Cpu)
    requires cpu.Valid()
    modifies cpu
    ensures cpu.Snapshot() == JumpAbsolute(old(cpu.Snapshot()))
  {
    var target := cpu.Absolute(0);
    cpu.pc := ToWord(target as int - 1);
  }

  method JumpIndirectArm(cpu: Cpu)
    requires cpu.Valid()
    modifies cpu
    ensures cpu.Snapshot() == JumpIndirect(old(cpu.Snapshot()))
  {
    var zp := cpu.ImmediateAddress();
    cpu.pc := BytesToShort(Signed(cpu.ReadRam(zp)), Signed(cpu.ReadRam(zp + 1)));
  }

  method DoJsr(cpu: Cpu)
    requires cpu.Valid()
    modifies cpu, cpu.ram
    ensures cpu.Snapshot() == JumpSubroutine(old(cpu.Snapshot()))
  {
    cpu.PushPC(2);
    var target := cpu.NextBytesPC();
    cpu.pc := ToWord(target as int - 1);
  }

  method DoRti(cpu: Cpu)
    requires cpu.Valid()
    modifies cpu
    ensures cpu.Snapshot() == ReturnFromInterrupt(old(cpu.Snapshot()))
  {
    var v := cpu.StackPop();
    cpu.flags := v as bv8;
    cpu.PopPC();
  }

  method DoBrk(cpu: Cpu)
    requires cpu.Valid()
    modifies cpu, cpu.ram
    ensures cpu.Snapshot() == Interrupt(old(cpu.Snapshot()))
  {
    cpu.PushPC(0);
    cpu.StackPush(cpu.flags as int);
    cpu.SetFlag(Break, true);
    cpu.halt := true;
  }

  /** The arms of the moving instructions, run on the machine. */
  method DoMove(cpu: Cpu, m: Mnemonic, mode: Mode)
    requires cpu.Valid() && IsMove(m) && OperandFits(m, mode)
    modifies cpu, cpu.ram
    ensures cpu.Snapshot() == Move(old(cpu.Snapshot()), m, mode)
  {
    if IsLoad(m) {
      DoLoad(cpu, m, mode);
    } else if IsStore(m) {
      DoStore(cpu, m, mode);
    } else if IsTransfer(m) {
      DoTransfer(cpu, m);
    } else {
      DoStack(cpu, m);
    }
  }

  /** The arms of the computing instructions, run on the machine. */
  method DoCompute(cpu: Cpu, m: Mnemonic, mode: Mode)
    requires cpu.Valid() && IsCompute(m) && OperandFits(m, mode)
    modifies cpu, cpu.ram
    ensures cpu.Snapshot() == Compute(old(cpu.Snapshot()), m, mode)
  {
    if m.ADC? || m.SBC? {
      DoArith(cpu, m, mode);
    } else if m.INC? || m.DEC? {
      DoIncDec(cpu, m, mode);
    } else if m.INX? || m.INY? || m.DEX? || m.DEY? {
      DoCount(cpu, m);
    } else if m.ORA? || m.AND? || m.EOR? {
      DoBitwise(cpu, m, mode);
    } else if IsShift(m) {
      DoShift(cpu, m, mode);
    } else if m.CMP? || m.CPX? || m.CPY? {
      DoCompare(cpu, m, mode);
    } else {
      DoBit(cpu, mode);
    }
  }

  /** The arms that set PC, run on the machine. */
  method DoControl(cpu: Cpu, ins: Instr) returns (cycles: int)
    requires cpu.Valid() && IsControl(ins.mnemonic) && OperandFits(ins.mnemonic, ins.mode)
    modifies cpu, cpu.ram
    ensures (cpu.Snapshot(), cycles) == Control(old(cpu.Snapshot()), ins)
  {
    var m := ins.mnemonic;
    cycles := ins.cycles;
    if m.JMP? {
      DoJump(cpu, ins.mode);
    } else if m.JSR? {
      DoJsr(cpu);
    } else if m.RTS? {
      cpu.PopPC();
    } else if m.RTI? {
      DoRti(cpu);
    } else if m.BRK? {
      DoBrk(cpu);
    } else {
      cycles := DoBranch(cpu, BranchTaken(cpu.flags, m));
    }
  }

  /** The arm of an instruction, run on the machine. */
  method Perform(cpu: Cpu, ins: Instr) returns (cycles: int)
    requires cpu.Valid() && OperandFits(ins.mnemonic, ins.mode)
    modifies cpu, cpu.ram
    ensures (cpu.Snapshot(), cycles) == Semantics(old(cpu.Snapshot()), ins)
  {
    var m := ins.mnemonic;
    cycles := ins.cycles;
    if IsMove(m) {
      DoMove(cpu, m, ins.mode);
    } else if IsCompute(m) {
      DoCompute(cpu, m, ins.mode);
    } else if IsControl(m) {
      cycles := DoControl(cpu, ins);
    } else if IsFlagOp(m) {
      var (f, on) := FlagOp(m);
      cpu.SetFlag(f, on);
    }
  }

  /** getInstruction(opcode).execute(cpu) */
  method Execute(cpu: Cpu, opcode: Byte) returns (cycles: int)
    requires cpu.Valid()
    modifies cpu, cpu.ram
    ensures (cpu.Snapshot(), cycles) == Effect(old(cpu.Snapshot()), opcode)
  {
    var decoded := Decode(opcode);
    if decoded.None? {
      cpu.halt := true;
      return 1;
    }
    cycles := Perform(cpu, decoded.value);
  }

  // ================================================================ properties of the handlers

  /** ROR undoes ROL and ROL undoes ROR: rotating through the carry one way and back restores
      both the byte and the carry. */
  lemma RotateRoundTrip(v: Byte, carry: bool)
    ensures var (r, c) := RolValue(v, carry); RorValue(r, c) == (v, carry)
    ensures var (r, c) := RorValue(v, carry); RolValue(r, c) == (v, carry)
  {
    var k := if carry then 1 else 0;
    var r := ToByte(2 * v + k);
    if v < 0x80 {
      assert r == 2 * v + k;
    } else {
      assert r == 2 * v + k - 0x100;
    }
    var q := v / 2 + (if carry then 0x80 else 0);
    assert v == 2 * (v / 2) + v % 2;
  }

  /** ASL is ROL with the carry clear. */
  lemma AslIsRolWithoutCarry(v: Byte)
    ensures AslValue(v) == RolValue(v, false)
  {
  }

  /** LSR, as written, shifts arithmetically: the result keeps bit 7 of the operand (the 6502's
      LSR clears it), and bits 0 to 6 are bits 1 to 7 of the operand. */
  lemma LsrKeepsBit7(v: Byte)
    ensures LsrValue(v).0 == v / 2 + (if v >= 0x80 then 0x80 else 0)
    ensures LsrValue(v).0 >= 0x80 <==> v >= 0x80
  {
    if v >= 0x80 {
      assert Signed(v) == v - 0x100;
      assert (v - 0x100) / 2 == v / 2 - 0x80;
    }
  }

  /** What the four shifts do to the bits of a byte: the carry out is bit 7 for ASL and ROL and
      bit 0 for LSR and ROR; ROL moves the old carry into bit 0 and ROR into bit 7, and the other
      seven bits are the operand's, moved by one place. */
  lemma ShiftBits(v: Byte, carry: bool)
    ensures AslValue(v).1 == BitSet(v, 7) && RolValue(v, carry).1 == BitSet(v, 7)
    ensures LsrValue(v).1 == BitSet(v, 0) && RorValue(v, carry).1 == BitSet(v, 0)
    ensures BitSet(RolValue(v, carry).0, 0) == carry && RolValue(v, carry).0 / 2 == v % 0x80
    ensures BitSet(RorValue(v, carry).0, 7) == carry && RorValue(v, carry).0 % 0x80 == v / 2
    ensures !BitSet(AslValue(v).0, 0) && AslValue(v).0 / 2 == v % 0x80
  {
    BitOfByte(v);
    RolBits(v, carry);
    RolBits(v, false);
    AslIsRolWithoutCarry(v);
    RorBits(v, carry);
  }

  /** The byte ROL leaves holds the old carry in bit 0 and bits 0 to 6 of the operand above it. */
  lemma RolBits(v: Byte, carry: bool)
    ensures BitSet(RolValue(v, carry).0, 0) == carry && RolValue(v, carry).0 / 2 == v % 0x80
  {
    var k := if carry then 1 else 0;
    var r := RolValue(v, carry).0;
    if v < 0x80 {
      assert r == 2 * v + k;
    } else {
      assert r == 2 * (v - 0x80) + k;
    }
    BitOfByte(r);
  }

  /** The byte ROR leaves holds the old carry in bit 7 and bits 1 to 7 of the operand below it. */
  lemma RorBits(v: Byte, carry: bool)
    ensures BitSet(RorValue(v, carry).0, 7) == carry && RorValue(v, carry).0 % 0x80 == v / 2
  {
    BitOfByte(RorValue(v, carry).0);
  }

  /** The carry a shift leaves: the bit shifted out of the operand. */
  function CarryOut(m: Mnemonic, v: Byte): bool
    requires IsShift(m)
  {
    if m.ASL? || m.ROL? then BitSet(v, 7) else BitSet(v, 0)
  }

  /** The carry ShiftValue returns is the bit shifted out of the operand. */
  lemma ShiftCarryOut(m: Mnemonic, v: Byte, carry: bool)
    requires IsShift(m)
    ensures ShiftValue(m, v, carry).1 == CarryOut(m, v)
  {
    ShiftBits(v, carry);
  }

  /** doASL, doLSR, doROL and doROR at an address write the shifted byte to that cell and no
      other, set Carry to the bit shifted out and Zero and Negative from the result, and keep
      the other flags, the registers, SP and PC. */
  lemma ShiftAtEffect(s: State, m: Mnemonic, addr: Word)
    requires s.Valid() && IsShift(m)
    ensures var v := s.ram[addr]; var t := ShiftAt(s, m, addr);
      var res := ShiftValue(m, v, GetFlag(s.flags, Carry)).0;
      && t.ram == s.ram[addr := res]
      && GetFlag(t.flags, Carry) == CarryOut(m, v)
      && GetFlag(t.flags, Zero) == (res == 0) && GetFlag(t.flags, Negative) == (res >= 0x80)
      && (forall g :: g != Carry && g != Zero && g != Negative ==> GetFlag(t.flags, g) == GetFlag(s.flags, g))
      && t.a == s.a && t.x == s.x && t.y == s.y && t.sp == s.sp && t.halt == s.halt && t.pc == s.pc
  {
    ShiftCarryOut(m, s.ram[addr], GetFlag(s.flags, Carry));
  }

  /** The memory forms of ASL, LSR, ROL and ROR: ShiftAtEffect at the resolved address, with PC
      moved past the operand. */
  lemma ShiftEffect(s: State, m: Mnemonic, mode: Mode)
    requires s.Valid() && IsShift(m) && IsMemoryMode(mode)
    ensures var addr := Resolve(s, mode).1; var v := s.ram[addr]; var t := Shift(s, m, mode);
      var res := ShiftValue(m, v, GetFlag(s.flags, Carry)).0;
      && t.ram == s.ram[addr := res]
      && GetFlag(t.flags, Carry) == CarryOut(m, v)
      && GetFlag(t.flags, Zero) == (res == 0) && GetFlag(t.flags, Negative) == (res >= 0x80)
      && (forall g :: g != Carry && g != Zero && g != Negative ==> GetFlag(t.flags, g) == GetFlag(s.flags, g))
      && t.a == s.a && t.x == s.x && t.y == s.y && t.sp == s.sp && t.halt == s.halt
      && t.pc == ToWord(s.pc + OperandBytes(mode))
  {
    var (u, addr) := Resolve(s, mode);
    ShiftAtEffect(u, m, addr);
  }

  /** A shift of the accumulator leaves the shifted byte in A, sets Carry to the bit shifted out
      and Zero and Negative from the result, and changes no other flag, register, cell or PC. */
  lemma ShiftAccumulatorEffect(s: State, m: Mnemonic)
    requires s.Valid() && IsShift(m)
    ensures var t := Shift(s, m, Acc); var res := ShiftValue(m, s.a, GetFlag(s.flags, Carry)).0;
      && t.a == res
      && GetFlag(t.flags, Carry) == CarryOut(m, s.a)
      && GetFlag(t.flags, Zero) == (res == 0) && GetFlag(t.flags, Negative) == (res >= 0x80)
      && (forall g :: g != Carry && g != Zero && g != Negative ==> GetFlag(t.flags, g) == GetFlag(s.flags, g))
      && t == s.(a := t.a, flags := t.flags)
  {
    ShiftCarryOut(m, s.a, GetFlag(s.flags, Carry));
  }

  /** DEC undoes INC on a memory cell. */
  lemma IncThenDecRestores(s: State, addr: Word)
    requires s.Valid()
    ensures IncDecAt(IncDecAt(s, addr, 1), addr, -1).ram == s.ram
  {
    var t := IncDecAt(s, addr, 1);
    assert t.ram[addr] == ToByte(s.ram[addr] as int + 1);
    assert ToByte(t.ram[addr] as int - 1) == s.ram[addr];
    assert IncDecAt(t, addr, -1).ram == s.ram[addr := ToByte(s.ram[addr] as int + 1)][addr := s.ram[addr]];
  }

  /** ADC leaves (A + value + carry) mod 256 in A, with Zero and Negative describing it; the
      carry is never cleared, so with the carry clear beforehand it reports exactly an unsigned
      overflow of A plus the operand byte. */
  lemma AdcResult(s: State, value: int)
    requires s.Valid()
    ensures Adc(s, value).a == (s.a + value + (if GetFlag(s.flags, Carry) then 1 else 0)) % 0x100
    ensures GetFlag(Adc(s, value).flags, Zero) <==> Adc(s, value).a == 0
    ensures GetFlag(Adc(s, value).flags, Negative) <==> Adc(s, value).a >= 0x80
    ensures GetFlag(s.flags, Carry) ==> GetFlag(Adc(s, value).flags, Carry)
    ensures !GetFlag(s.flags, Carry) ==>
      (GetFlag(Adc(s, value).flags, Carry) <==> s.a + ToByte(value) > 0xFF)
  {
    var k := if GetFlag(s.flags, Carry) then 1 else 0;
    var num := ToByte(value + k);
    assert (s.a + num) % 0x100 == (s.a + value + k) % 0x100;
  }

  /** SBC leaves (A - value - borrow) mod 256 in A, the borrow being 1 when the carry is clear;
      Zero is set iff A equalled the subtrahend. The carry is never set. */
  lemma SbcResult(s: State, value: int)
    requires s.Valid()
    ensures Sbc(s, value).a == (s.a - value - (if GetFlag(s.flags, Carry) then 0 else 1)) % 0x100
    ensures GetFlag(Sbc(s, value).flags, Zero) <==> Sbc(s, value).a == 0
    ensures GetFlag(Sbc(s, value).flags, Carry) ==> GetFlag(s.flags, Carry)
  {
    var k := if GetFlag(s.flags, Carry) then 0 else 1;
    var num := ToByte(value + k);
    assert (s.a - num) % 0x100 == (s.a - value - k) % 0x100;
  }

  /** A load puts the operand in its register and sets Zero and Negative from it; no other
      register, flag or memory cell changes, and PC moves past the operand. */
  lemma LoadEffect(s: State, m: Mnemonic, mode: Mode)
    requires s.Valid() && IsLoad(m) && IsValueMode(mode)
    ensures var v := Operand(s, m, mode).1; var t := Load(s, m, mode);
      && RegValue(t, Target(m)) == v
      && GetFlag(t.flags, Zero) == (v == 0) && GetFlag(t.flags, Negative) == (v >= 0x80)
      && (forall g :: g != Zero && g != Negative ==> GetFlag(t.flags, g) == GetFlag(s.flags, g))
      && (forall r :: r != Target(m) ==> RegValue(t, r) == RegValue(s, r))
      && t.ram == s.ram && t.frames == s.frames && t.sp == s.sp && t.halt == s.halt
      && t.pc == ToWord(s.pc + OperandBytes(mode))
  {
  }

  /** A store writes its register to the resolved address and changes nothing else: no flag,
      no register, no other cell; PC moves past the operand. */
  lemma StoreEffect(s: State, m: Mnemonic, mode: Mode)
    requires s.Valid() && IsStore(m) && IsMemoryMode(mode)
    ensures var addr := Resolve(s, mode).1; var t := Store(s, m, mode);
      && t.ram == s.ram[addr := RegValue(s, Target(m))]
      && t.(ram := s.ram, frames := s.frames) == s.(pc := ToWord(s.pc + OperandBytes(mode)))
  {
    var (u, addr) := Resolve(s, mode);
    var v := RegValue(u, Target(m));
    assert v == RegValue(s, Target(m));
    assert Store(s, m, mode) == Write(u, addr, v);
  }

  /** The transfers copy one register into another and set Zero and Negative from the copied
      byte, except TXS, which changes SP only. TSX copies SP into Y and leaves X alone. */
  lemma TransferEffect(s: State, m: Mnemonic)
    requires s.Valid() && IsTransfer(m)
    ensures var t := Transfer(s, m);
      && t.ram == s.ram && t.pc == s.pc && t.halt == s.halt && t.frames == s.frames
      && (m.TAX? ==> t.x == s.a && t.a == s.a && t.y == s.y && t.sp == s.sp)
      && (m.TAY? ==> t.y == s.a && t.a == s.a && t.x == s.x && t.sp == s.sp)
      && (m.TXA? ==> t.a == s.x && t.x == s.x && t.y == s.y && t.sp == s.sp)
      && (m.TYA? ==> t.a == s.y && t.x == s.x && t.y == s.y && t.sp == s.sp)
      && (m.TSX? ==> t.y == s.sp && t.x == s.x && t.a == s.a && t.sp == s.sp)
      && (m.TXS? ==> t == s.(sp := s.x))
      && (!m.TXS? ==> var v := (if m.TSX? then s.sp else if m.TXA? then s.x
                                 else if m.TYA? then s.y else s.a);
            GetFlag(t.flags, Zero) == (v == 0) && GetFlag(t.flags, Negative) == (v >= 0x80))
  {
    match m
    case TAX =>
    case TAY =>
    case TXA =>
    case TYA =>
    case TSX =>
    case TXS =>
  }

  /** ORA, AND and EOR leave in A the accumulator combined bitwise with the operand, set Zero and
      Negative from it, and change no other flag, register or cell; PC moves past the operand. */
  lemma BitwiseEffect(s: State, m: Mnemonic, mode: Mode)
    requires s.Valid() && (m.ORA? || m.AND? || m.EOR?) && IsValueMode(mode)
    ensures var v := Operand(s, m, mode).1; var t := Bitwise(s, m, mode);
      var r := if m.ORA? then Or(s.a, v) else if m.AND? then And(s.a, v) else Xor(s.a, v);
      && t.a == r
      && GetFlag(t.flags, Zero) == (r == 0) && GetFlag(t.flags, Negative) == (r >= 0x80)
      && (forall g :: g != Zero && g != Negative ==> GetFlag(t.flags, g) == GetFlag(s.flags, g))
      && t == s.(a := r, flags := t.flags, pc := ToWord(s.pc + OperandBytes(mode)))
  {
  }

  /** INX, INY, DEX, DEY change their register by one modulo 256 and no other register, and set
      Zero and Negative from the new value. */
  lemma CountEffect(s: State, m: Mnemonic)
    requires s.Valid() && (m.INX? || m.INY? || m.DEX? || m.DEY?)
    ensures var t := Count(s, m); var r := if m.INX? || m.DEX? then X else Y;
      && RegValue(t, r) == (RegValue(s, r) + (if m.INX? || m.INY? then 1 else -1)) % 0x100
      && GetFlag(t.flags, Zero) == (RegValue(t, r) == 0)
      && GetFlag(t.flags, Negative) == (RegValue(t, r) >= 0x80)
      && (forall g :: g != Zero && g != Negative ==> GetFlag(t.flags, g) == GetFlag(s.flags, g))
      && (forall q :: q != r ==> RegValue(t, q) == RegValue(s, q))
      && t.ram == s.ram && t.pc == s.pc && t.sp == s.sp
  {
  }

  /** DEX undoes INX and DEY undoes INY. */
  lemma CountRoundTrip(s: State)
    requires s.Valid()
    ensures Count(Count(s, INX), DEX).x == s.x
    ensures Count(Count(s, INY), DEY).y == s.y
  {
    ByteStepForth(s.x);
    ByteStepForth(s.y);
  }

  /** Stepping a byte up and back down restores it. */
  lemma ByteStepForth(v: Byte)
    ensures ToByte(ToByte(v + 1) - 1) == v
  {
  }

  /** INC and DEC change the addressed cell by one modulo 256, set Zero and Negative from the new
      value, and leave the registers and every other cell alone. */
  lemma IncDecEffect(s: State, m: Mnemonic, mode: Mode)
    requires s.Valid() && (m.INC? || m.DEC?) && IsMemoryMode(mode)
    ensures var addr := Resolve(s, mode).1; var t := IncDec(s, m, mode);
      var v := (s.ram[addr] as int + (if m.INC? then 1 else -1)) % 0x100;
      && t.ram == s.ram[addr := v]
      && GetFlag(t.flags, Zero) == (v == 0) && GetFlag(t.flags, Negative) == (v >= 0x80)
      && t.a == s.a && t.x == s.x && t.y == s.y && t.sp == s.sp
      && t.pc == ToWord(s.pc + OperandBytes(mode))
  {
  }

  /** CMP, CPX and CPY change only PC and the flags: Carry iff the register is at least the
      operand, Zero iff they are equal, Negative from bit 7 of their difference modulo 256;
      Interrupt, Decimal, Break and Overflow are kept. */
  lemma CompareEffect(s: State, m: Mnemonic, mode: Mode)
    requires s.Valid() && (m.CMP? || m.CPX? || m.CPY?) && IsValueMode(mode)
    ensures var v := Operand(s, m, mode).1; var t := Compare(s, m, mode);
      var reg := RegValue(s, Target(m));
      && t == s.(pc := ToWord(s.pc + OperandBytes(mode)), flags := t.flags)
      && GetFlag(t.flags, Carry) == (reg >= v) && GetFlag(t.flags, Zero) == (reg == v)
      && GetFlag(t.flags, Negative) == (ToByte(reg - v) >= 0x80)
      && (forall g :: g != Carry && g != Zero && g != Negative ==> GetFlag(t.flags, g) == GetFlag(s.flags, g))
  {
  }

  /** BIT changes only PC and the flags: Zero iff A AND the byte is 0, Overflow and Negative
      copy bits 6 and 7 of the byte. */
  lemma BitTestEffect(s: State, mode: Mode)
    requires s.Valid() && IsMemoryMode(mode)
    ensures var addr := Resolve(s, mode).1; var v := s.ram[addr]; var t := BitTest(s, mode);
      && t == s.(pc := ToWord(s.pc + OperandBytes(mode)), flags := t.flags)
      && GetFlag(t.flags, Zero) == (And(s.a, v) == 0)
      && GetFlag(t.flags, Overflow) == BitSet(v, 6)
      && GetFlag(t.flags, Negative) == BitSet(v, 7)
      && (forall g :: g != Zero && g != Overflow && g != Negative ==> GetFlag(t.flags, g) == GetFlag(s.flags, g))
  {
    var t := Resolve(s, mode).0;
    var v := s.ram[Resolve(s, mode).1];
    BitOfByte(v);
  }

  /** Bits 0, 6 and 7 of a byte, arithmetically. */
  lemma BitOfByte(v: Byte)
    ensures BitSet(v, 0) == (v % 2 == 1)
    ensures BitSet(v, 6) == (v % 0x80 >= 0x40)
    ensures BitSet(v, 7) == (v >= 0x80)
  {
    var b := v as bv8;
    assert b & 0x01 != 0 <==> b % 2 == 1;
    assert b & 0x40 != 0 <==> (b % 0x80) >= 0x40;
    assert b & 0x80 != 0 <==> b >= 0x80;
  }

  /** A branch reads one displacement byte. Taken: PC = PC + 1 + the signed displacement, 3
      cycles; not taken: PC = PC + 1, 2 cycles; nothing else changes. */
  lemma BranchEffect(s: State, condition: bool)
    requires s.Valid()
    ensures var rel := s.ram[ToWord(s.pc + 1)];
      Branch(s, condition) ==
        if condition then (s.(pc := ToWord(s.pc + 1 + Signed(rel))), 3)
        else (s.(pc := ToWord(s.pc + 1)), 2)
  {
    var p := s.pc + 1;
    assert ToWord(ToWord(p) + Signed(s.ram[ToWord(p)])) == ToWord(p + Signed(s.ram[ToWord(p)]));
  }

  /** PLA after PHA restores A and SP. */
  lemma PushPullAccumulator(s: State)
    requires s.Valid()
    ensures var t := StackOp(StackOp(s, PHA), PLA); t.a == s.a && t.sp == s.sp && t.pc == s.pc
  {
    PopAfterPush(s, s.a);
  }

  /** PLP after PHP restores the whole status byte and SP. */
  lemma PushPullStatus(s: State)
    requires s.Valid()
    ensures var t := StackOp(StackOp(s, PHP), PLP); t.flags == s.flags && t.sp == s.sp && t.a == s.a
  {
    PopAfterPush(s, s.flags as int);
    BitsRoundTrip(s.flags);
  }

  /** BRK pushes the high and low byte of PC, then the status byte, as three stack pushes;
      then it sets Break and halts. PC and the other flags are kept. */
  lemma InterruptEffect(s: State)
    requires s.Valid()
    ensures Interrupt(s) ==
      PushAll(s, [HighByte(s.pc), LowByte(s.pc), s.flags as int])
        .(flags := WithFlag(s.flags, Break, true), halt := true)
  {
    var vs := [HighByte(s.pc), LowByte(s.pc), s.flags as int];
    var t1 := Push(s, vs[0]);
    var t2 := Push(t1, vs[1]);
    var t3 := Push(t2, vs[2]);
    assert ToWord(s.pc + 0) == s.pc;
    assert PushAddress(s, 0) == t2;
    assert PushAll(t2, vs[2..]) == t3;
    assert PushAll(t1, vs[1..]) == PushAll(t2, vs[2..]);
  }

  /** popPC reads only SP and the two cells above it. */
  lemma PopAddressReads(p: State, q: State)
    requires p.Valid() && q.Valid() && p.sp == q.sp
    requires p.ram[StackPage + ToByte(p.sp + 1)] == q.ram[StackPage + ToByte(q.sp + 1)]
    requires p.ram[StackPage + ToByte(ToByte(p.sp + 1) + 1)] == q.ram[StackPage + ToByte(ToByte(q.sp + 1) + 1)]
    ensures PopAddress(p).pc == PopAddress(q).pc && PopAddress(p).sp == PopAddress(q).sp
  {
  }

  /** RTI after BRK restores PC, SP and the status byte as they were before the BRK. */
  lemma InterruptRoundTrip(s: State)
    requires s.Valid()
    ensures var t := ReturnFromInterrupt(Interrupt(s));
      t.pc == s.pc && t.sp == s.sp && t.flags == s.flags && t.a == s.a && t.x == s.x && t.y == s.y
  {
    var t := PushAddress(s, 0);
    PopAddressAfterPushAddress(s, 0);
    assert ToWord(s.pc + 0) == s.pc;
    StackSlotsAbove(t.sp);
    ReturnFromInterruptReads(Interrupt(s), t);
  }

  /** RTI on a stack that holds a status byte above the two bytes of a return address does what
      popPC does on the stack without the status byte, and restores the status byte. */
  lemma ReturnFromInterruptReads(w: State, t: State)
    requires w.Valid() && t.Valid() && w.sp == ToByte(t.sp - 1)
    requires w.ram[StackPage + t.sp] == ToByte(t.flags as int)
    requires w.ram[StackPage + ToByte(t.sp + 1)] == t.ram[StackPage + ToByte(t.sp + 1)]
    requires w.ram[StackPage + ToByte(ToByte(t.sp + 1) + 1)] == t.ram[StackPage + ToByte(ToByte(t.sp + 1) + 1)]
    ensures var r := ReturnFromInterrupt(w);
      && r.pc == PopAddress(t).pc && r.sp == PopAddress(t).sp && r.flags == t.flags
      && r.a == w.a && r.x == w.x && r.y == w.y
  {
    var p := Pop(w);
    ByteStepBack(t.sp);
    BitsRoundTrip(t.flags);
    PopAddressReads(p.0.(flags := p.1 as bv8), t);
  }

  /** Stepping SP down and back up restores it. */
  lemma ByteStepBack(sp: Byte)
    ensures ToByte(ToByte(sp - 1) + 1) == sp
  {
  }

  /** The two cells above SP are not the cell at SP. */
  lemma StackSlotsAbove(sp: Byte)
    ensures ToByte(sp + 1) != sp && ToByte(ToByte(sp + 1) + 1) != sp
  {
  }

  /** Each SEx and CLx instruction sets or clears exactly one flag and changes nothing else. */
  lemma FlagOpEffect(s: State, m: Mnemonic)
    requires s.Valid() && IsFlagOp(m)
    ensures var (f, on) := FlagOp(m); var t := Semantics(s, Instr(m, Imp, 2)).0;
      && t == s.(flags := t.flags)
      && GetFlag(t.flags, f) == on
      && (forall g :: g != f ==> GetFlag(t.flags, g) == GetFlag(s.flags, g))
      && (m.SEC? || m.SED? || m.SEI? ==> on)
      && (m.CLC? || m.CLD? || m.CLI? || m.CLV? ==> !on)
  {
    assert !IsMove(m) && !IsCompute(m) && !IsControl(m);
    assert Semantics(s, Instr(m, Imp, 2)).0 == s.(flags := WithFlag(s.flags, FlagOp(m).0, FlagOp(m).1));
  }

  /** NOP (0xEA) changes nothing and costs 2 cycles. */
  lemma NopEffect(s: State)
    requires s.Valid()
    ensures Effect(s, 0xEA) == (s, 2)
  {
    DecodeFixed();
    NopSemantics(s);
  }

  /** BRK (0x00) does what Interrupt says and costs 7 cycles. */
  lemma BrkEffect(s: State)
    requires s.Valid()
    ensures Effect(s, 0x00) == (Interrupt(s), 7)
  {
    DecodeFixed();
    BrkSemantics(s);
  }

  /** The table entries of NOP and BRK. */
  lemma DecodeFixed()
    ensures Decode(0xEA) == Some(Instr(NOP, Imp, 2))
    ensures Decode(0x00) == Some(Instr(BRK, Imp, 7))
  {
  }

  lemma NopSemantics(s: State)
    requires s.Valid()
    ensures Semantics(s, Instr(NOP, Imp, 2)) == (s, 2)
  {
  }

  lemma BrkSemantics(s: State)
    requires s.Valid()
    ensures Semantics(s, Instr(BRK, Imp, 7)) == (Interrupt(s), 7)
  {
  }

  /** An opcode outside the table halts the machine, changes nothing else and costs 1. */
  lemma IllegalOpcodeHalts(s: State, op: Byte)
    requires s.Valid() && Decode(op).None?
    ensures Effect(s, op) == (s.(halt := true), 1)
  {
  }
}
