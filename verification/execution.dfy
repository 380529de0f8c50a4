/** The fetch-execute step of CPU6502.java: `executeInstruction(opcode)` runs the handler and
    then adds one to PC, whatever the handler did; `execute()` fetches the opcode at PC, runs it
    and books the cycles; one pass of the body of `run()` counts down the clock and executes
    when the count is spent. The properties here follow instructions across that step: where
    control lands after JMP, a branch, or a JSR ... RTS pair, and how PC advances past
    everything else. */
module Execution {
  import opened Bits
  import opened Wrappers
  import opened Isa
  import opened Cpu6502
  import opened Opcode6502

  // ================================================================ the step, as functions

  /** executeInstruction(opcode): the handler's effect, then PC + 1 (16-bit); the handler's
      cycle count is returned. No handler of the model can throw (every RAM index is a 16-bit
      address), so the catch arm is never taken. */
  function AfterInstruction(s: State, op: Byte): (r: (State, int))
    requires s.Valid()
    ensures r.0.Valid() && 1 <= r.1 <= 7
    ensures r.0.executionTime == s.executionTime && r.0.waitCycles == s.waitCycles
  {
    Advance(Effect(s, op))
  }

  /** The PC + 1 that executeInstruction adds after the handler, whatever the handler did. */
  function Advance(r: (State, int)): (t: (State, int))
    requires r.0.Valid()
    ensures t.0.Valid()
  {
    (r.0.(pc := ToWord(r.0.pc + 1)), r.1)
  }

  /** execute(): run the opcode at PC, add its cycles to the 32-bit executiontime and set
      waitCycles to them. */
  function AfterExecute(s: State): (t: State)
    requires s.Valid()
    ensures t.Valid()
    ensures 1 <= t.waitCycles <= 7
    ensures t.executionTime == Int32(s.executionTime + t.waitCycles)
  {
    var r := AfterInstruction(s, s.ram[s.pc]);
    r.0.(executionTime := Int32(r.0.executionTime + r.1), waitCycles := r.1)
  }

  /** The address run() writes a random byte to on every clock tick. */
  const RandomCell: Word := 0x00FE

  /** One pass of the loop in run(), with the wall clock and the random number generator as
      parameters: when a clock period has elapsed, waitCycles counts down and `random` is
      written to 0x00FE; then, once waitCycles is spent, the next instruction executes. */
  function AfterTick(s: State, clockDue: bool, random: Byte): (t: State)
    requires s.Valid()
    ensures t.Valid()
  {
    var u := AfterClock(s, clockDue, random);
    if u.waitCycles <= 0 then AfterExecute(u) else u
  }

  /** The clock half of the loop body: one cycle counted off and a fresh random byte, exactly
      when a clock period has elapsed; nothing else changes. */
  function AfterClock(s: State, clockDue: bool, random: Byte): (t: State)
    requires s.Valid()
    ensures t.Valid()
    ensures clockDue ==> t.waitCycles == Int32(s.waitCycles - 1) && t.ram == s.ram[RandomCell := random]
    ensures !clockDue ==> t == s
  {
    if clockDue then Write(s.(waitCycles := Int32(s.waitCycles - 1)), RandomCell, random) else s
  }

  /** The start of run(): a halted machine restarts with executiontime cleared. */
  function Started(s: State): (t: State)
    ensures !t.halt
    ensures s.halt ==> t == s.(executionTime := 0, halt := false)
    ensures !s.halt ==> t == s
  {
    if s.halt then s.(executionTime := 0, halt := false) else s
  }

  // ================================================================ the step, on the machine

  /** executeInstruction */
  method ExecuteInstruction(cpu: Cpu, opcode: Byte) returns (cycles: int)
    requires cpu.Valid()
    modifies cpu, cpu.ram
    ensures (cpu.Snapshot(), cycles) == AfterInstruction(old(cpu.Snapshot()), opcode)
  {
    ghost var s := cpu.Snapshot();
    cycles := Execute(cpu, opcode);
    ghost var t := cpu.Snapshot();
    ghost var e := Effect(s, opcode);
    assert e == (t, cycles);
    assert AfterInstruction(s, opcode) == (t.(pc := ToWord(t.pc + 1)), cycles);
    cpu.pc := ToWord(cpu.pc + 1);
    assert cpu.Snapshot() == t.(pc := ToWord(t.pc + 1));
  }

  /** execute */
  method ExecuteNext(cpu: Cpu)
    requires cpu.Valid()
    modifies cpu, cpu.ram
    ensures cpu.Snapshot() == AfterExecute(old(cpu.Snapshot()))
  {
    var opcode := cpu.ReadRam(cpu.pc);
    var cycles := ExecuteInstruction(cpu, opcode);
    cpu.executionTime := Int32(cpu.executionTime + cycles);
    cpu.waitCycles := cycles;
  }

  /** One pass of the body of run()'s loop. */
  method RunTick(cpu: Cpu, clockDue: bool, random: Byte)
    requires cpu.Valid()
    modifies cpu, cpu.ram
    ensures cpu.Snapshot() == AfterTick(old(cpu.Snapshot()), clockDue, random)
  {
    ClockTick(cpu, clockDue, random);
    if cpu.waitCycles <= 0 {
      ExecuteNext(cpu);
    }
  }

  /** The clock half of the body of run()'s loop. */
  method ClockTick(cpu: Cpu, clockDue: bool, random: Byte)
    requires cpu.Valid()
    modifies cpu, cpu.ram
    ensures cpu.Snapshot() == AfterClock(old(cpu.Snapshot()), clockDue, random)
  {
    if clockDue {
      cpu.waitCycles := Int32(cpu.waitCycles - 1);
      cpu.WriteRam(RandomCell, random);
    }
  }

  /** The start of run() */
  method Start(cpu: Cpu)
    requires cpu.Valid()
    modifies cpu
    ensures cpu.Snapshot() == Started(old(cpu.Snapshot()))
  {
    if cpu.halt {
      cpu.executionTime := 0;
      cpu.halt := false;
    }
  }

  // ================================================================ where control lands

  /** executeInstruction(op) runs the arm the table selects for `op`, then adds one to PC. */
  lemma InstructionStep(s: State, op: Byte, ins: Instr)
    requires s.Valid() && Decode(op) == Some(ins)
    ensures AfterInstruction(s, op) == Advance(Semantics(s, ins))
  {
  }

  /** execute() runs the opcode at PC and books its cycles: the machine afterwards is the one
      executeInstruction leaves, with waitCycles set to the cycles. */
  lemma ExecuteRunsOpcodeAtPc(s: State)
    requires s.Valid()
    ensures var (u, c) := AfterInstruction(s, s.ram[s.pc]); var t := AfterExecute(s);
      t.pc == u.pc && t.sp == u.sp && t.a == u.a && t.x == u.x && t.y == u.y
      && t.flags == u.flags && t.ram == u.ram && t.halt == u.halt && t.waitCycles == c
  {
  }

  /** Every instruction that does not set PC itself leaves PC on the byte right after its
      operand bytes, so the next execute() fetches the following instruction. */
  lemma StraightLineNext(s: State, op: Byte, ins: Instr)
    requires s.Valid() && Decode(op) == Some(ins) && !IsControl(ins.mnemonic)
    ensures AfterInstruction(s, op).0.pc == ToWord(s.pc + 1 + OperandBytes(ins.mode))
  {
    InstructionStep(s, op, ins);
    StraightLinePc(s, ins);
  }

  lemma StraightLinePc(s: State, ins: Instr)
    requires s.Valid() && OperandFits(ins.mnemonic, ins.mode) && !IsControl(ins.mnemonic)
    ensures Advance(Semantics(s, ins)).0.pc == ToWord(s.pc + 1 + OperandBytes(ins.mode))
  {
    WordSum(s.pc + OperandBytes(ins.mode), 1);
  }

  /** The table entries of the jumps, the call and the return. */
  lemma DecodeControl()
    ensures Decode(0x4C) == Some(Instr(JMP, Abs, 3))
    ensures Decode(0x6C) == Some(Instr(JMP, Ind, 5))
    ensures Decode(0x20) == Some(Instr(JSR, Abs, 6))
    ensures Decode(0x60) == Some(Instr(RTS, Imp, 6))
  {
  }

  lemma JumpAbsoluteSemantics(s: State)
    requires s.Valid()
    ensures Semantics(s, Instr(JMP, Abs, 3)) == (JumpAbsolute(s), 3)
  {
  }

  lemma JumpIndirectSemantics(s: State)
    requires s.Valid()
    ensures Semantics(s, Instr(JMP, Ind, 5)) == (JumpIndirect(s), 5)
  {
  }

  lemma CallSemantics(s: State)
    requires s.Valid()
    ensures Semantics(s, Instr(JSR, Abs, 6)) == (JumpSubroutine(s), 6)
  {
  }

  lemma ReturnSemantics(s: State)
    requires s.Valid()
    ensures Semantics(s, Instr(RTS, Imp, 6)) == (PopAddress(s), 6)
  {
  }

  /** The two-byte operand following the opcode at PC, little-endian. */
  function OperandWord(s: State): (w: Word)
    requires s.Valid()
    ensures w == s.ram[ToWord(s.pc + 1)] + 0x100 * (s.ram[ToWord(s.pc + 2)] as int)
  {
    NextWord(s).1
  }

  lemma JumpAbsoluteStep(s: State)
    requires s.Valid()
    ensures AfterInstruction(s, 0x4C) == Advance((JumpAbsolute(s), 3))
  {
    DecodeControl();
    JumpAbsoluteSemantics(s);
  }

  lemma JumpAbsoluteTarget(s: State)
    requires s.Valid()
    ensures var t := Advance((JumpAbsolute(s), 3)).0;
      t.pc == OperandWord(s)
      && t.sp == s.sp && t.a == s.a && t.x == s.x && t.y == s.y && t.flags == s.flags
      && t.ram == s.ram
  {
    WordSum(OperandWord(s) - 1, 1);
  }

  /** JMP absolute (0x4C) lands exactly on its operand: the handler's PC - 1 and
      executeInstruction's PC + 1 cancel, even for a target of 0. It costs 3 cycles and leaves
      the stack, the registers, the flags and memory alone. */
  lemma JumpAbsoluteLands(s: State)
    requires s.Valid()
    ensures var r := AfterInstruction(s, 0x4C);
      r.0.pc == OperandWord(s) && r.1 == 3
      && r.0.sp == s.sp && r.0.a == s.a && r.0.x == s.x && r.0.y == s.y && r.0.flags == s.flags
      && r.0.ram == s.ram
  {
    JumpAbsoluteStep(s);
    JumpAbsoluteTarget(s);
  }

  lemma JumpIndirectStep(s: State)
    requires s.Valid()
    ensures AfterInstruction(s, 0x6C) == Advance((JumpIndirect(s), 5))
  {
    DecodeControl();
    JumpIndirectSemantics(s);
  }

  lemma JumpIndirectTarget(s: State)
    requires s.Valid()
    ensures var t := Advance((JumpIndirect(s), 5)).0;
      var zp := s.ram[ToWord(s.pc + 1)];
      t.sp == s.sp && t.ram == s.ram
      && (s.ram[zp] < 0x80 ==> t.pc == ToWord(s.ram[zp + 1] as int * 0x100 + s.ram[zp] + 1))
      && (s.ram[zp] >= 0x80 ==> t.pc == ToWord(0xFF00 + s.ram[zp] as int + 1))
  {
  }

  /** JMP indirect (0x6C) reads ONE operand byte, a zero-page address, and takes the pointer
      from that cell and the next; as its arm subtracts nothing, control lands one byte PAST the
      pointer. A low pointer byte of 0x80 or more is sign-extended, so the high byte is then
      0xFF whatever the second cell holds. */
  lemma JumpIndirectLands(s: State)
    requires s.Valid()
    ensures var r := AfterInstruction(s, 0x6C);
      var zp := s.ram[ToWord(s.pc + 1)];
      r.1 == 5 && r.0.sp == s.sp && r.0.ram == s.ram
      && (s.ram[zp] < 0x80 ==> r.0.pc == ToWord(s.ram[zp + 1] as int * 0x100 + s.ram[zp] + 1))
      && (s.ram[zp] >= 0x80 ==> r.0.pc == ToWord(0xFF00 + s.ram[zp] as int + 1))
  {
    JumpIndirectStep(s);
    JumpIndirectTarget(s);
  }

  /** The branches are the only arms that set PC by a displacement. */
  lemma BranchIsControl(m: Mnemonic)
    requires IsBranch(m)
    ensures !IsMove(m) && !IsCompute(m) && IsControl(m)
  {
  }

  lemma BranchStep(s: State, op: Byte, ins: Instr)
    requires s.Valid() && Decode(op) == Some(ins) && IsBranch(ins.mnemonic)
    ensures AfterInstruction(s, op) == Advance(Branch(s, BranchTaken(s.flags, ins.mnemonic)))
  {
    InstructionStep(s, op, ins);
    BranchIsControl(ins.mnemonic);
  }

  lemma BranchTarget(s: State, taken: bool)
    requires s.Valid()
    ensures var r := Advance(Branch(s, taken));
      var rel := s.ram[ToWord(s.pc + 1)];
      r.0.sp == s.sp && r.0.ram == s.ram && r.0.flags == s.flags
      && (taken ==> r.0.pc == ToWord(s.pc + 2 + Signed(rel)) && r.1 == 3)
      && (!taken ==> r.0.pc == ToWord(s.pc + 2) && r.1 == 2)
  {
    BranchEffect(s, taken);
    var rel := s.ram[ToWord(s.pc + 1)];
    WordSum(s.pc + 1 + Signed(rel), 1);
    WordSum(s.pc + 1, 1);
  }

  /** A branch continues after its two bytes, plus the signed displacement when the condition
      holds: a taken branch costs 3 cycles, one not taken 2. */
  lemma BranchLands(s: State, op: Byte, ins: Instr)
    requires s.Valid() && Decode(op) == Some(ins) && IsBranch(ins.mnemonic)
    ensures var r := AfterInstruction(s, op);
      var rel := s.ram[ToWord(s.pc + 1)];
      r.0.sp == s.sp && r.0.ram == s.ram && r.0.flags == s.flags
      && (BranchTaken(s.flags, ins.mnemonic) ==> r.0.pc == ToWord(s.pc + 2 + Signed(rel)) && r.1 == 3)
      && (!BranchTaken(s.flags, ins.mnemonic) ==> r.0.pc == ToWord(s.pc + 2) && r.1 == 2)
  {
    BranchStep(s, op, ins);
    BranchTarget(s, BranchTaken(s.flags, ins.mnemonic));
  }

  lemma CallStep(s: State)
    requires s.Valid()
    ensures AfterInstruction(s, 0x20) == Advance((JumpSubroutine(s), 6))
  {
    DecodeControl();
    CallSemantics(s);
  }

  lemma CallTarget(s: State)
    requires s.Valid()
    ensures var t := Advance((JumpSubroutine(s), 6)).0; var p := PushAddress(s, 2);
      t.pc == OperandWord(p) && t.sp == p.sp && t.ram == p.ram
      && t.a == s.a && t.x == s.x && t.y == s.y && t.flags == s.flags
  {
    var p := PushAddress(s, 2);
    assert JumpSubroutine(s) == p.(pc := ToWord(OperandWord(p) - 1));
    WordSum(OperandWord(p) - 1, 1);
  }

  /** pushPC pushes two bytes: SP drops by two, modulo 256. */
  lemma PushAddressDropsTwo(s: State, offs: int)
    requires s.Valid()
    ensures PushAddress(s, offs).sp == ToByte(s.sp - 2)
  {
    ByteSum(s.sp - 1, -1);
  }

  /** Whether the address lies in page 1, the stack. */
  predicate InStackPage(addr: Word)
  {
    StackPage <= addr < StackPage + 0x100
  }

  /** pushPC writes only to the stack page, so operand bytes outside it read the same. */
  lemma PushAddressKeepsOperand(s: State, offs: int)
    requires s.Valid() && !InStackPage(ToWord(s.pc + 1)) && !InStackPage(ToWord(s.pc + 2))
    ensures OperandWord(PushAddress(s, offs)) == OperandWord(s)
  {
    var target := ToWord(s.pc + offs);
    var s1 := Push(s, HighByte(target));
    WriteEffect(s, StackPage + s.sp, HighByte(target));
    WriteEffect(s1, StackPage + s1.sp, LowByte(target));
  }

  /** JSR (0x20) pushes the address of its own last byte, high byte first, so SP drops by two;
      then it reads its operand, from memory as the push left it, and lands on it, 6 cycles.
      Outside the stack page the operand is what the program holds. */
  lemma CallLands(s: State)
    requires s.Valid()
    ensures var r := AfterInstruction(s, 0x20);
      r.0.pc == OperandWord(PushAddress(s, 2)) && r.1 == 6 && r.0.sp == ToByte(s.sp - 2)
      && r.0.a == s.a && r.0.x == s.x && r.0.y == s.y && r.0.flags == s.flags
      && (!InStackPage(ToWord(s.pc + 1)) && !InStackPage(ToWord(s.pc + 2)) ==>
            r.0.pc == OperandWord(s))
  {
    CallStep(s);
    CallTarget(s);
    PushAddressDropsTwo(s, 2);
    if !InStackPage(ToWord(s.pc + 1)) && !InStackPage(ToWord(s.pc + 2)) {
      PushAddressKeepsOperand(s, 2);
    }
  }

  lemma ReturnStep(u: State)
    requires u.Valid()
    ensures AfterInstruction(u, 0x60) == Advance((PopAddress(u), 6))
  {
    DecodeControl();
    ReturnSemantics(u);
  }

  /** Popping an address from a stack whose SP and top two cells are those pushPC(2) left
      yields the address after JSR's last byte, with SP back where it was. */
  lemma ReturnTarget(s: State, u: State)
    requires s.Valid() && u.Valid()
    requires var p := PushAddress(s, 2);
      u.sp == p.sp
      && u.ram[StackPage + ToByte(u.sp + 1)] == p.ram[StackPage + ToByte(p.sp + 1)]
      && u.ram[StackPage + ToByte(ToByte(u.sp + 1) + 1)] == p.ram[StackPage + ToByte(ToByte(p.sp + 1) + 1)]
    ensures Advance((PopAddress(u), 6)).0.pc == ToWord(s.pc + 3) && PopAddress(u).sp == s.sp
  {
    PopAddressAfterPushAddress(s, 2);
    PopAddressReads(u, PushAddress(s, 2));
    WordSum(s.pc + 2, 1);
  }

  /** RTS run after JSR, with SP and the two stack cells as JSR left them (whatever ran in
      between), resumes on the instruction after the JSR with SP restored, 6 cycles. */
  lemma CallReturn(s: State, u: State)
    requires s.Valid() && u.Valid()
    requires var t := AfterInstruction(s, 0x20).0;
      u.sp == t.sp
      && u.ram[StackPage + ToByte(u.sp + 1)] == t.ram[StackPage + ToByte(t.sp + 1)]
      && u.ram[StackPage + ToByte(ToByte(u.sp + 1) + 1)] == t.ram[StackPage + ToByte(ToByte(t.sp + 1) + 1)]
    ensures var r := AfterInstruction(u, 0x60);
      r.0.pc == ToWord(s.pc + 3) && r.0.sp == s.sp && r.1 == 6
  {
    CallStep(s);
    CallTarget(s);
    ReturnTarget(s, u);
    ReturnStep(u);
  }
}
