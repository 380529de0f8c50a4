/** Where the emulator goes when it executes what the assembler wrote for a reference to a label.
    A line of Assemble6502.java that names a label is assembled at `byteCount` bytes from the
    entry point; the program is loaded at the entry point, so the line's bytes sit at
    `entry + byteCount`. Executing them with CPU6502.java's step, a JMP or JSR arrives at the
    label's address and a taken branch arrives there too, except for a displacement of exactly
    128, which the assembler accepts but the processor reads back as -128. */
module Landing {
  import opened Bits
  import opened Wrappers
  import opened Text
  import opened Isa
  import opened Cpu6502
  import opened Opcode6502
  import opened Execution
  import opened Encoder
  import opened Assembler
  import opened Resolution

  /** A taken branch at `at` whose operand byte reads back as the displacement `offs` (or as
      -128 when `offs` is 128) continues `offs` bytes past the end of the branch, less 256 when
      `offs` is 128. Resolution.BranchOperand shows the assembler writes exactly such a byte
      for a label at `at + 2 + offs`: a taken branch reaches its label, except at 128. */
  lemma BranchTo(s: State, op: Byte, ins: Instr, at: int, offs: int)
    requires s.Valid() && Decode(op) == Some(ins) && IsBranch(ins.mnemonic)
    requires BranchTaken(s.flags, ins.mnemonic) && s.pc == ToWord(at)
    requires Signed(s.ram[ToWord(s.pc + 1)]) == if offs == 128 then -128 else offs
    ensures AfterInstruction(s, op).0.pc == ToWord(at + 2 + offs - if offs == 128 then 0x100 else 0)
  {
    BranchLands(s, op, ins);
    WordSum(at, 2 + Signed(s.ram[ToWord(s.pc + 1)]));
  }

  /** A JMP assembled from a line naming a label sends the processor to the label's address. */
  lemma JumpReachesLabel(line: string, i: nat, j: nat, labels: Table<int>, entry: int,
                         byteCount: int, r: string, b: seq<Byte>, s: State)
    requires i <= j <= |line| && RefersOnce(line[..i], line[i..j], line[j..], Keys(labels))
    requires JumpsFit(labels, entry) && Assembler.Resolve(line, labels, entry, byteCount) == Some(r)
    requires GetBytes(line).Data? && IsJump(GetBytes(line).data.name)
    requires LineBytes(r) == Some(b) && |b| == 3
    requires s.Valid() && s.ram[ToWord(s.pc + 1)] == b[1] && s.ram[ToWord(s.pc + 2)] == b[2]
    ensures Get(labels, line[i..j]).Some?
    ensures AfterInstruction(s, 0x4C).0.pc == entry + Get(labels, line[i..j]).value
  {
    JumpOperand(line, i, j, labels, entry, byteCount, r, b);
    JumpTo(s, entry + Get(labels, line[i..j]).value);
  }

  /** JMP absolute continues at the word its two operand bytes hold, low byte first. */
  lemma JumpTo(s: State, w: int)
    requires s.Valid() && s.ram[ToWord(s.pc + 1)] as int + 0x100 * s.ram[ToWord(s.pc + 2)] as int == w
    ensures AfterInstruction(s, 0x4C).0.pc == w
  {
    JumpAbsoluteLands(s);
  }

  /** A JSR assembled from a line naming a label, and not placed where its operand shares the
      stack page with the return address it pushes, sends the processor to the label's
      address. */
  lemma CallReachesLabel(line: string, i: nat, j: nat, labels: Table<int>, entry: int,
                         byteCount: int, r: string, b: seq<Byte>, s: State)
    requires i <= j <= |line| && RefersOnce(line[..i], line[i..j], line[j..], Keys(labels))
    requires JumpsFit(labels, entry) && Assembler.Resolve(line, labels, entry, byteCount) == Some(r)
    requires GetBytes(line).Data? && IsJump(GetBytes(line).data.name)
    requires LineBytes(r) == Some(b) && |b| == 3
    requires s.Valid() && s.ram[ToWord(s.pc + 1)] == b[1] && s.ram[ToWord(s.pc + 2)] == b[2]
    requires !InStackPage(ToWord(s.pc + 1)) && !InStackPage(ToWord(s.pc + 2))
    ensures Get(labels, line[i..j]).Some?
    ensures AfterInstruction(s, 0x20).0.pc == entry + Get(labels, line[i..j]).value
  {
    JumpOperand(line, i, j, labels, entry, byteCount, r, b);
    CallTo(s, entry + Get(labels, line[i..j]).value);
  }

  /** JSR continues at the word its two operand bytes hold, low byte first, when those bytes
      are not in the stack page its return address is pushed to. */
  lemma CallTo(s: State, w: int)
    requires s.Valid() && s.ram[ToWord(s.pc + 1)] as int + 0x100 * s.ram[ToWord(s.pc + 2)] as int == w
    requires !InStackPage(ToWord(s.pc + 1)) && !InStackPage(ToWord(s.pc + 2))
    ensures AfterInstruction(s, 0x20).0.pc == w
  {
    CallLands(s);
  }
}
