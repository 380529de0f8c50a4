# 6502Java in Dafny

A Dafny model of the core of 6502Java, a MOS 6502 emulator written in Java together with the
assembler that feeds it, and proofs about both halves and about how they fit together.

- **The processor** (`CPU6502.java`, modules `Bits`, `Cpu6502`). This covers:
  - 64 KiB of RAM, with a display notification for each write to the framebuffer
    0x0200..0x05FF;
  - the PC, SP, A, X and Y registers and the status byte;
  - operand fetch, the addressing-mode resolvers, the page-1 stack and the flag helpers;
  - `importRAM`.

  Each primitive is a function on an immutable `State`. Each is also a method of the class
  `Cpu`, which updates the fields and a 65536-cell RAM array in place, as the Java does. Every
  method is proved equal to its function through `Cpu.Snapshot()`.
- **The instruction handlers** (`Opcode6502.java`, modules `Isa`, `Opcode6502`).
  - `getInstruction` is split into two parts. The table `Decode` maps an opcode to its
    mnemonic, addressing mode and cycle count. `Semantics` gives what the arm does. `Effect`
    composes the two, and the default arm halts.
  - `Execute`, `Perform` and the `Do…` methods run the same arms on a `Cpu`.
  - The quirks of the code are kept:
    - `readIndirectY` goes through `indirectX`;
    - the zero-page and absolute ADC/SBC arms add the address itself;
    - LSR shifts arithmetically;
    - TSX writes Y;
    - 0xED and 0xFD are swapped;
    - JMP indirect takes a one-byte pointer and subtracts nothing;
    - ADC only sets Carry and SBC only clears it;
    - Overflow is the source's approximation.
- **The step** (`CPU6502.java`, module `Execution`).
  - `executeInstruction` runs the arm and then adds one to PC.
  - `execute` books the cycles.
  - One pass of `run()`'s loop takes the clock and the random byte as parameters.
  - Lemmas follow control across the step: JMP, JSR…RTS, the branches, BRK…RTI, and straight-line code.
- **The assembler** (`Assemble6502.java`, modules `Text`, `Encoder`, `Assembler`, `Directives`).
  - `getOpcode` and its table, and `getBytes` with its thirteen operand patterns.
  - `assemble(String[])`:
    - the filter;
    - the backward directive and label scan;
    - the placeholder sizing pass;
    - the final pass, which resolves labels and checks the branch range;
    - the listing.

  Each loop is a method proved against a specification function. `Text` writes out the parts
  of `String`, `java.util.regex` and `Integer` that these rely on.
- **Assembler and processor together** (modules `Resolution`, `Landing`, `RoundTrip`).
  - Sizing with placeholders gives every line the length it has in the final pass. So each
    label's offset is the position of its line's bytes in the output.
  - A JMP, JSR or taken branch to a label arrives at the label.
  - The listing, read back by `importRAM(String[])`, puts the program at the entry point and
    changes nothing else.

Paths below are relative to the repository root. `Main.java` (the JavaFX front end) is not
part of this model.

## Model

| member | source | states |
|---|---|---|
| Bits.Signed | src/main/java/com/lewisk/emulation/CPU6502.java:299-315 | a byte widened as Java does lies in -128..127, truncates back to the same byte, and is negative exactly when bit 7 is set |
| Bits.SignedToByte | src/main/java/com/lewisk/emulation/Assemble6502.java:388-394 | a displacement of -128..128 stored as a byte reads back signed as itself, except 128, which reads back as -128 |
| Bits.Int32 | src/main/java/com/lewisk/emulation/CPU6502.java:436 | Java int addition wraps into -2^31..2^31-1 and is the identity on values already in range |
| Cpu6502.WithFlag | src/main/java/com/lewisk/emulation/CPU6502.java:105-116 | after setFlag(f, b), getFlag(f) is b and the other seven flags are unchanged |
| Cpu6502.FlagsDetermineByte | src/main/java/com/lewisk/emulation/CPU6502.java:54-70 | the eight flags cover the status byte: two bytes with the same flags are equal |
| Cpu6502.PowerOnFlags | src/main/java/com/lewisk/emulation/CPU6502.java:118-123 | resetFlags leaves exactly Break and Undefined set, the byte 0x30 |
| Cpu6502.ResultFlags | src/main/java/com/lewisk/emulation/CPU6502.java:317-322 | Zero iff the byte is 0, Negative iff its bit 7 is set, every other flag kept |
| Cpu6502.ResultFlagsOverflow | src/main/java/com/lewisk/emulation/CPU6502.java:323-327 | as ResultFlags, plus Overflow iff the int result is above 128 or below -127 |
| Cpu6502.CmpFlags | src/main/java/com/lewisk/emulation/CPU6502.java:291-297 | Carry iff a >= b unsigned, Zero iff a == b, Negative from (a - b) mod 256; the other flags kept |
| Cpu6502.AdcFlags | src/main/java/com/lewisk/emulation/CPU6502.java:299-306 | Carry is the old Carry or an unsigned sum above 255 (never cleared); Zero, Negative from the sum mod 256; Overflow from the signed sum |
| Cpu6502.SbcFlags | src/main/java/com/lewisk/emulation/CPU6502.java:308-315 | Carry is the old Carry and a >= b (never set); Zero iff a == b; Negative, Overflow from the difference |
| Cpu6502.WithReg | src/main/java/com/lewisk/emulation/CPU6502.java:330-344 | setRegA/X/Y: the register holds the byte and the flags are setFlagsResult of it |
| Cpu6502.PixelFor | src/main/java/com/lewisk/emulation/CPU6502.java:419-428 | a framebuffer write lights pixel (x, y) with x, y < 32, 0x0200 + 32y + x the address, colour the low nibble of the byte |
| Cpu6502.WriteEffect | src/main/java/com/lewisk/emulation/CPU6502.java:131-137 | writeRAM stores value mod 256 at the address, changes no other cell and no register, and logs one display event exactly for a framebuffer address |
| Cpu6502.BytesToShort | src/main/java/com/lewisk/emulation/CPU6502.java:158-161 | high * 256 + low for an unsigned low byte; a negative low byte sign-extends to 0xFF00 + its low eight bits |
| Cpu6502.NextWord | src/main/java/com/lewisk/emulation/CPU6502.java:150-156 | nextBytesPC moves PC by exactly 2 and returns the two bytes after PC, low byte first |
| Cpu6502.ZeroPageAddr | src/main/java/com/lewisk/emulation/CPU6502.java:213-217 | zeroPage(r) consumes one byte and yields (operand + r) mod 256 |
| Cpu6502.AbsoluteAddr | src/main/java/com/lewisk/emulation/CPU6502.java:218-221 | absolute(r) consumes two bytes and yields (word + unsigned r) mod 65536 |
| Cpu6502.IndirectXAddr | src/main/java/com/lewisk/emulation/CPU6502.java:222-230 | the pointer sits at (operand + X) mod 256; its high byte is read from the next cell, without wrapping |
| Cpu6502.IndirectYAddr | src/main/java/com/lewisk/emulation/CPU6502.java:231-238 | the pointer sits at the operand, and Y is added as a signed byte, mod 65536 |
| Cpu6502.PopAfterPush | src/main/java/com/lewisk/emulation/CPU6502.java:265-273 | stackPop after stackPush returns the pushed byte and restores SP, with registers and flags kept |
| Cpu6502.PopAddressAfterPushAddress | src/main/java/com/lewisk/emulation/CPU6502.java:275-288 | popPC after pushPC(k) sets PC to PC + k (16-bit), with SP, registers and flags restored |
| Cpu6502.PushAllRegisters | src/main/java/com/lewisk/emulation/CPU6502.java:265-268 | n pushes lower SP by n mod 256 and touch no register |
| Cpu6502.PushAllCell | src/main/java/com/lewisk/emulation/CPU6502.java:265-268 | after up to 256 pushes, the k-th value sits at 0x0100 + (SP - k) mod 256 and the cells not reached are unchanged |
| Cpu6502.PopManyState | src/main/java/com/lewisk/emulation/CPU6502.java:270-273 | n pops raise SP by n mod 256 and change nothing else |
| Cpu6502.PopManyCell | src/main/java/com/lewisk/emulation/CPU6502.java:270-273 | the j-th pop reads the cell j + 1 above SP, mod 256 |
| Cpu6502.StackIsLifo | src/main/java/com/lewisk/emulation/CPU6502.java:265-273 | n <= 256 pushes then n pops return the bytes in reverse and restore SP, across the 0x00/0xFF wrap |
| Cpu6502.Cpu.constructor | src/main/java/com/lewisk/emulation/CPU6502.java:90-102 | zeroed RAM, PC 0x0600, SP 0xFF, A = X = Y = 0, halted, executiontime 0, flags 0x30 |
| Cpu6502.Cpu.SetFlag | src/main/java/com/lewisk/emulation/CPU6502.java:110-116 | the status byte becomes WithFlag of the old one; nothing else changes |
| Cpu6502.Cpu.ResetFlags | src/main/java/com/lewisk/emulation/CPU6502.java:118-123 | the status byte becomes PowerOnFlags; nothing else changes |
| Cpu6502.Cpu.WriteRam | src/main/java/com/lewisk/emulation/CPU6502.java:131-137 | the new machine is Write of the old one (see WriteEffect) |
| Cpu6502.Cpu.WriteRamWithFlags | src/main/java/com/lewisk/emulation/CPU6502.java:139-143 | the write, then Zero and Negative from the stored byte |
| Cpu6502.Cpu.NextBytePC | src/main/java/com/lewisk/emulation/CPU6502.java:145-148 | PC is pre-incremented (16-bit) and the byte there returned |
| Cpu6502.Cpu.NextBytesPC | src/main/java/com/lewisk/emulation/CPU6502.java:150-156 | the machine and word of NextWord |
| Cpu6502.Cpu.ImmediateAddress | src/main/java/com/lewisk/emulation/CPU6502.java:209-212 | the next byte, unsigned, with PC advanced by one |
| Cpu6502.Cpu.ZeroPage | src/main/java/com/lewisk/emulation/CPU6502.java:213-217 | the machine and address of ZeroPageAddr |
| Cpu6502.Cpu.Absolute | src/main/java/com/lewisk/emulation/CPU6502.java:218-221 | the machine and address of AbsoluteAddr |
| Cpu6502.Cpu.IndirectX | src/main/java/com/lewisk/emulation/CPU6502.java:222-230 | the machine and address of IndirectXAddr |
| Cpu6502.Cpu.IndirectY | src/main/java/com/lewisk/emulation/CPU6502.java:231-238 | the machine and address of IndirectYAddr |
| Cpu6502.Cpu.ReadZeroPage | src/main/java/com/lewisk/emulation/CPU6502.java:240-243 | the byte at ZeroPageAddr |
| Cpu6502.Cpu.ReadAbsolute | src/main/java/com/lewisk/emulation/CPU6502.java:244-247 | the byte at AbsoluteAddr |
| Cpu6502.Cpu.ReadIndirectX | src/main/java/com/lewisk/emulation/CPU6502.java:255-258 | the byte at IndirectXAddr |
| Cpu6502.Cpu.ReadIndirectY | src/main/java/com/lewisk/emulation/CPU6502.java:259-262 | the byte at IndirectXAddr, since readIndirectY resolves through indirectX |
| Cpu6502.Cpu.StackPush | src/main/java/com/lewisk/emulation/CPU6502.java:265-268 | the machine of Push: write at 0x0100 + SP, then SP - 1 mod 256 |
| Cpu6502.Cpu.StackPop | src/main/java/com/lewisk/emulation/CPU6502.java:270-273 | the machine and byte of Pop: SP + 1 mod 256, then read |
| Cpu6502.Cpu.PushPC | src/main/java/com/lewisk/emulation/CPU6502.java:275-281 | the machine of PushAddress: high byte, then low byte of PC + k |
| Cpu6502.Cpu.PopPC | src/main/java/com/lewisk/emulation/CPU6502.java:283-288 | the machine of PopAddress: low byte, then high byte into PC |
| Cpu6502.Cpu.SetFlagsResult | src/main/java/com/lewisk/emulation/CPU6502.java:317-322 | the status byte becomes ResultFlags; nothing else changes |
| Cpu6502.Cpu.SetFlagsResultOverflow | src/main/java/com/lewisk/emulation/CPU6502.java:323-327 | the status byte becomes ResultFlagsOverflow; nothing else changes |
| Cpu6502.Cpu.SetFlagsCmp | src/main/java/com/lewisk/emulation/CPU6502.java:291-297 | the status byte becomes CmpFlags; nothing else changes |
| Cpu6502.Cpu.SetFlagsAdc | src/main/java/com/lewisk/emulation/CPU6502.java:299-306 | the status byte becomes AdcFlags; nothing else changes |
| Cpu6502.Cpu.SetFlagsSbc | src/main/java/com/lewisk/emulation/CPU6502.java:308-315 | the status byte becomes SbcFlags; nothing else changes |
| Cpu6502.Cpu.SetReg | src/main/java/com/lewisk/emulation/CPU6502.java:330-344 | the machine of WithReg |
| Cpu6502.Cpu.ImportRam | src/main/java/com/lewisk/emulation/CPU6502.java:163 | each value is written to the next address, wrapping at 0xFFFF (ImportWords) |
| Cpu6502.Cpu.ImportRamLines | src/main/java/com/lewisk/emulation/CPU6502.java:179-205 | the machine of ImportLines, and false exactly where the Java throws; earlier writes remain |
| Cpu6502.Cpu.ImportRamLine | src/main/java/com/lewisk/emulation/CPU6502.java:190-203 | one row: the address before ':' in hex, then each non-empty space-separated hex number at the next address |
| Isa.ModeId | src/main/java/com/lewisk/emulation/Assemble6502.java:122-134 | each mode has a column below 12 |
| Isa.ModeIdInjective | src/main/java/com/lewisk/emulation/Assemble6502.java:122-134 | distinct modes have distinct columns |
| Isa.OperandBytes | src/main/java/com/lewisk/emulation/Assemble6502.java:122-134 | at most two operand bytes, none exactly for the accumulator and implied modes |
| Opcode6502.Decode | src/main/java/com/lewisk/emulation/Opcode6502.java:73-892 | each listed opcode decodes to an instruction whose mode fits its family, with 2..7 cycles |
| Opcode6502.Semantics | src/main/java/com/lewisk/emulation/Opcode6502.java:76-885 | an arm keeps the timing fields; it returns its table cycles (a branch 2 or 3); every arm that does not set PC moves PC past its operand bytes |
| Opcode6502.Effect | src/main/java/com/lewisk/emulation/Opcode6502.java:73-892 | every arm, the default one included, keeps the timing fields and returns 1..7 cycles |
| Opcode6502.Resolve | src/main/java/com/lewisk/emulation/CPU6502.java:213-238 | resolving an address consumes exactly the mode's operand bytes and changes nothing else |
| Opcode6502.Operand | src/main/java/com/lewisk/emulation/Opcode6502.java:76-116 | a reading arm's operand consumes exactly the mode's operand bytes; (zp),Y reads through indirectX except for LDA |
| Opcode6502.ArithOperand | src/main/java/com/lewisk/emulation/Opcode6502.java:269-349 | the value ADC/SBC add consumes exactly the mode's operand bytes |
| Opcode6502.IncDec | src/main/java/com/lewisk/emulation/Opcode6502.java:351-411 | INC and DEC keep the timing fields and move PC past the operand |
| Opcode6502.Bitwise | src/main/java/com/lewisk/emulation/Opcode6502.java:426-547 | ORA, EOR and AND keep the timing fields and move PC past the operand (their effect is BitwiseEffect) |
| Opcode6502.Shift | src/main/java/com/lewisk/emulation/Opcode6502.java:549-661 | the shift arms keep the timing fields and move PC past the operand (their effect is ShiftEffect and ShiftAccumulatorEffect) |
| Opcode6502.StackOp | src/main/java/com/lewisk/emulation/Opcode6502.java:664-684 | PHA, PLA, PHP and PLP leave PC alone |
| Opcode6502.Branch | src/main/java/com/lewisk/emulation/Opcode6502.java:18-27 | doBranch returns 2 or 3 cycles and keeps the timing fields |
| Opcode6502.RotateRoundTrip | src/main/java/com/lewisk/emulation/Opcode6502.java:28-45 | ROR undoes ROL and ROL undoes ROR, for both the byte and the carry |
| Opcode6502.AslIsRolWithoutCarry | src/main/java/com/lewisk/emulation/Opcode6502.java:28-59 | ASL is ROL with the carry clear |
| Opcode6502.LsrKeepsBit7 | src/main/java/com/lewisk/emulation/Opcode6502.java:46-52 | LSR gives v / 2 plus 0x80 when bit 7 was set: the arithmetic shift keeps bit 7 |
| Opcode6502.ShiftBits | src/main/java/com/lewisk/emulation/Opcode6502.java:28-59 | the carry out is bit 7 for ASL and ROL and bit 0 for LSR and ROR; ROL puts the old carry in bit 0 and ROR in bit 7; the other seven bits move by one place; ASL clears bit 0 |
| Opcode6502.RolBits | src/main/java/com/lewisk/emulation/Opcode6502.java:28-36 | the byte ROL leaves has the old carry in bit 0 and bits 0..6 of the operand above it |
| Opcode6502.RorBits | src/main/java/com/lewisk/emulation/Opcode6502.java:37-45 | the byte ROR leaves has the old carry in bit 7 and bits 1..7 of the operand below it |
| Opcode6502.ShiftCarryOut | src/main/java/com/lewisk/emulation/Opcode6502.java:28-59 | the carry each shift produces is the bit shifted out of the operand |
| Opcode6502.ShiftAtEffect | src/main/java/com/lewisk/emulation/Opcode6502.java:28-59 | a shift at an address writes the shifted byte to that cell only, sets Carry to the bit shifted out, Zero and Negative from the result, and keeps the other flags, A, X, Y, SP and PC |
| Opcode6502.ShiftEffect | src/main/java/com/lewisk/emulation/Opcode6502.java:549-661 | the memory forms of ASL/LSR/ROL/ROR: ShiftAtEffect at the resolved address, with PC moved past the operand |
| Opcode6502.ShiftAccumulatorEffect | src/main/java/com/lewisk/emulation/Opcode6502.java:549-640 | the accumulator forms leave the shifted byte in A, set Carry to the bit shifted out and Zero and Negative from the result, and change no other flag, register, cell or PC |
| Opcode6502.BitwiseEffect | src/main/java/com/lewisk/emulation/Opcode6502.java:426-547 | ORA, AND and EOR leave A combined bitwise with the operand, set Zero and Negative from it, and change no other flag, register or cell; PC moves past the operand |
| Opcode6502.IncThenDecRestores | src/main/java/com/lewisk/emulation/Opcode6502.java:351-411 | DEC after INC at one address restores all of RAM |
| Opcode6502.AdcResult | src/main/java/com/lewisk/emulation/Opcode6502.java:60-65 | A' = (A + value + C) mod 256; Zero, Negative from A'; Carry never cleared, and from a clear Carry set iff A + value mod 256 exceeds 255 |
| Opcode6502.SbcResult | src/main/java/com/lewisk/emulation/Opcode6502.java:66-71 | A' = (A - value - (1 - C)) mod 256; Zero iff A' is 0; Carry never set |
| Opcode6502.LoadEffect | src/main/java/com/lewisk/emulation/Opcode6502.java:76-167 | a load puts its operand in its register with Zero and Negative; no other register, flag or cell changes; PC moves past the operand |
| Opcode6502.StoreEffect | src/main/java/com/lewisk/emulation/Opcode6502.java:169-235 | a store writes its register at the resolved address and changes nothing else but PC and the display log |
| Opcode6502.TransferEffect | src/main/java/com/lewisk/emulation/Opcode6502.java:237-266 | each transfer copies its source, with Zero and Negative; TSX writes SP to Y; TXS sets SP only |
| Opcode6502.CountEffect | src/main/java/com/lewisk/emulation/Opcode6502.java:376-423 | INX, INY, DEX and DEY move their register by one mod 256, set Zero and Negative from the new value, keep every other flag, and touch no other register, RAM, PC or SP |
| Opcode6502.CountRoundTrip | src/main/java/com/lewisk/emulation/Opcode6502.java:376-423 | DEX undoes INX and DEY undoes INY |
| Opcode6502.IncDecEffect | src/main/java/com/lewisk/emulation/Opcode6502.java:351-411 | INC/DEC set the cell to (cell +/- 1) mod 256, with Zero and Negative from it; registers and SP are kept |
| Opcode6502.CompareEffect | src/main/java/com/lewisk/emulation/Opcode6502.java:687-759 | CMP/CPX/CPY change only PC and flags: Carry iff the register is at least the operand, Zero iff equal, Negative iff bit 7 of (register - operand) mod 256 is set |
| Opcode6502.BitTestEffect | src/main/java/com/lewisk/emulation/Opcode6502.java:760-776 | BIT changes only PC and flags: Zero iff A AND M is 0, Overflow and Negative from bits 6 and 7 of M |
| Opcode6502.BranchEffect | src/main/java/com/lewisk/emulation/Opcode6502.java:18-27 | a branch reads one byte; taken, PC += 1 + signed byte and 3 cycles; not taken, PC += 1 and 2 cycles; nothing else changes |
| Opcode6502.PushPullAccumulator | src/main/java/com/lewisk/emulation/Opcode6502.java:664-673 | PLA after PHA restores A, SP and PC |
| Opcode6502.PushPullStatus | src/main/java/com/lewisk/emulation/Opcode6502.java:675-684 | PLP after PHP restores the status byte and SP |
| Opcode6502.InterruptEffect | src/main/java/com/lewisk/emulation/Opcode6502.java:874-881 | BRK pushes PC high, PC low, then the status byte, sets Break and halts, and keeps PC |
| Opcode6502.InterruptRoundTrip | src/main/java/com/lewisk/emulation/Opcode6502.java:867-881 | RTI after BRK restores PC, SP, the status byte and the registers |
| Opcode6502.FlagOpEffect | src/main/java/com/lewisk/emulation/Opcode6502.java:828-865 | each SEx/CLx sets or clears exactly its one flag and changes nothing else |
| Opcode6502.NopEffect | src/main/java/com/lewisk/emulation/Opcode6502.java:883-884 | NOP changes nothing and costs 2 |
| Opcode6502.BrkEffect | src/main/java/com/lewisk/emulation/Opcode6502.java:874-881 | BRK costs 7 and does what InterruptEffect states |
| Opcode6502.IllegalOpcodeHalts | src/main/java/com/lewisk/emulation/Opcode6502.java:886-891 | an opcode outside the table halts, changes nothing else and costs 1 |
| Opcode6502.DoBranch | src/main/java/com/lewisk/emulation/Opcode6502.java:18-27 | the machine and cycles of Branch |
| Opcode6502.DoRol | src/main/java/com/lewisk/emulation/Opcode6502.java:28-36 | the machine of ShiftAt for ROL |
| Opcode6502.DoRor | src/main/java/com/lewisk/emulation/Opcode6502.java:37-45 | the machine of ShiftAt for ROR |
| Opcode6502.DoLsr | src/main/java/com/lewisk/emulation/Opcode6502.java:46-52 | the machine of ShiftAt for LSR |
| Opcode6502.DoAsl | src/main/java/com/lewisk/emulation/Opcode6502.java:53-59 | the machine of ShiftAt for ASL |
| Opcode6502.DoAdc | src/main/java/com/lewisk/emulation/Opcode6502.java:60-65 | the machine of Adc (see AdcResult) |
| Opcode6502.DoSbc | src/main/java/com/lewisk/emulation/Opcode6502.java:66-71 | the machine of Sbc (see SbcResult) |
| Opcode6502.DoLoad | src/main/java/com/lewisk/emulation/Opcode6502.java:76-167 | the machine of Load (see LoadEffect) |
| Opcode6502.DoStore | src/main/java/com/lewisk/emulation/Opcode6502.java:169-235 | the machine of Store (see StoreEffect) |
| Opcode6502.DoTransfer | src/main/java/com/lewisk/emulation/Opcode6502.java:237-266 | the machine of Transfer (see TransferEffect) |
| Opcode6502.DoArith | src/main/java/com/lewisk/emulation/Opcode6502.java:269-349 | the machine of Arith: doADC/doSBC of the arm's operand |
| Opcode6502.DoIncDec | src/main/java/com/lewisk/emulation/Opcode6502.java:351-411 | the machine of IncDec (see IncDecEffect) |
| Opcode6502.DoCount | src/main/java/com/lewisk/emulation/Opcode6502.java:376-423 | the machine of Count (see CountEffect) |
| Opcode6502.DoBitwise | src/main/java/com/lewisk/emulation/Opcode6502.java:426-547 | the machine of Bitwise |
| Opcode6502.DoShift | src/main/java/com/lewisk/emulation/Opcode6502.java:549-661 | the machine of Shift |
| Opcode6502.DoStack | src/main/java/com/lewisk/emulation/Opcode6502.java:664-684 | the machine of StackOp |
| Opcode6502.DoCompare | src/main/java/com/lewisk/emulation/Opcode6502.java:687-759 | the machine of Compare (see CompareEffect) |
| Opcode6502.DoBit | src/main/java/com/lewisk/emulation/Opcode6502.java:760-776 | the machine of BitTest (see BitTestEffect) |
| Opcode6502.DoJump | src/main/java/com/lewisk/emulation/Opcode6502.java:779-789 | the machine of Jump |
| Opcode6502.DoJsr | src/main/java/com/lewisk/emulation/Opcode6502.java:791-804 | the machine of JumpSubroutine |
| Opcode6502.DoRti | src/main/java/com/lewisk/emulation/Opcode6502.java:867-872 | the machine of ReturnFromInterrupt |
| Opcode6502.DoBrk | src/main/java/com/lewisk/emulation/Opcode6502.java:874-881 | the machine of Interrupt |
| Opcode6502.Perform | src/main/java/com/lewisk/emulation/Opcode6502.java:76-885 | the machine and cycles of Semantics |
| Opcode6502.Execute | src/main/java/com/lewisk/emulation/Opcode6502.java:73-892 | getInstruction(op).execute: the machine and cycles of Effect |
| Execution.AfterInstruction | src/main/java/com/lewisk/emulation/CPU6502.java:365-381 | executeInstruction returns 1..7 cycles and keeps executiontime and waitCycles |
| Execution.AfterExecute | src/main/java/com/lewisk/emulation/CPU6502.java:431-438 | execute sets waitCycles to the cycles (1..7) and adds them to executiontime as a Java int |
| Execution.AfterClock | src/main/java/com/lewisk/emulation/CPU6502.java:460-467 | on a clock tick waitCycles drops by one and the random byte lands at 0x00FE; otherwise nothing changes |
| Execution.Started | src/main/java/com/lewisk/emulation/CPU6502.java:444-448 | run() clears halt, and clears executiontime exactly when the machine was halted |
| Execution.ExecuteInstruction | src/main/java/com/lewisk/emulation/CPU6502.java:365-381 | the machine and cycles of AfterInstruction: the arm, then PC + 1 |
| Execution.ExecuteNext | src/main/java/com/lewisk/emulation/CPU6502.java:431-438 | the machine of AfterExecute |
| Execution.RunTick | src/main/java/com/lewisk/emulation/CPU6502.java:459-473 | one pass of run()'s loop: the clock half, then execute when waitCycles <= 0 |
| Execution.ClockTick | src/main/java/com/lewisk/emulation/CPU6502.java:460-467 | the machine of AfterClock |
| Execution.Start | src/main/java/com/lewisk/emulation/CPU6502.java:444-448 | the machine of Started |
| Execution.InstructionStep | src/main/java/com/lewisk/emulation/CPU6502.java:365-381 | executeInstruction runs the arm the table selects, then adds one to PC |
| Execution.ExecuteRunsOpcodeAtPc | src/main/java/com/lewisk/emulation/CPU6502.java:431-438 | execute runs the opcode at PC: registers, flags, RAM and halt are those executeInstruction leaves, and waitCycles is its cycles |
| Execution.StraightLineNext | src/main/java/com/lewisk/emulation/CPU6502.java:365-381 | an instruction that does not set PC leaves PC on the byte after its operand |
| Execution.JumpAbsoluteLands | src/main/java/com/lewisk/emulation/Opcode6502.java:779-783 | JMP absolute lands exactly on its operand, in 3 cycles, with SP, registers, flags and RAM kept |
| Execution.JumpIndirectLands | src/main/java/com/lewisk/emulation/Opcode6502.java:784-789 | JMP indirect lands one past the pointer held in the zero-page cell its one operand byte names; a low pointer byte of 0x80 or more forces the high byte to 0xFF |
| Execution.BranchLands | src/main/java/com/lewisk/emulation/Opcode6502.java:811-826 | a branch continues at PC + 2, plus the signed displacement when its condition holds (3 cycles, else 2); SP, flags and RAM are kept |
| Execution.CallLands | src/main/java/com/lewisk/emulation/Opcode6502.java:791-804 | JSR pushes two bytes (SP - 2) and lands on its operand as read after the push; outside the stack page, on the program's operand |
| Execution.CallReturn | src/main/java/com/lewisk/emulation/Opcode6502.java:791-809 | RTS, with the stack as JSR left it, resumes at the JSR's address + 3 with SP restored, 6 cycles |
| Text.RemoveSpaces | src/main/java/com/lewisk/emulation/Assemble6502.java:141 | replaceAll("\\s", "") leaves no white space and adds nothing |
| Text.IndexOf | src/main/java/com/lewisk/emulation/Assemble6502.java:246 | the first position of the character, or -1 exactly when it is absent |
| Text.Lower | src/main/java/com/lewisk/emulation/Assemble6502.java:148 | toLowerCase maps each character, keeping the length |
| Text.ParseInt | src/main/java/com/lewisk/emulation/CPU6502.java:195-199 | Integer.parseInt yields a Java int or fails |
| Text.ReplaceOnce | src/main/java/com/lewisk/emulation/Assemble6502.java:397 | replace of a word occurring once, after a separator, changes exactly that occurrence |
| Text.WordAroundToken | src/main/java/com/lewisk/emulation/Assemble6502.java:375-376 | whether another word matches ".*\\bname\\b.*" does not depend on the token between separators |
| Text.HexOfValue | src/main/java/com/lewisk/emulation/Assemble6502.java:384 | the hex digits of a number parse back to it |
| Text.FormatHexWidth | src/main/java/com/lewisk/emulation/Assemble6502.java:384 | String.format("%0Nx", v) has exactly N digits when v < 16^N |
| Text.FormatHexParses | src/main/java/com/lewisk/emulation/Assemble6502.java:394 | Integer.parseInt(_, 16) of String.format("%0Nx", v) is v |
| Encoder.Cell | src/main/java/com/lewisk/emulation/Assemble6502.java:45-100 | every cell of the table is a byte |
| Encoder.GetOpcode | src/main/java/com/lewisk/emulation/Assemble6502.java:40-116 | the upper-cased mnemonic's cell for the mode; 0 for an unknown mnemonic or an FF cell, so always 0..254 |
| Encoder.TableAgreesWithDecoder | src/main/java/com/lewisk/emulation/Assemble6502.java:45-100 | every code the table holds decodes in the emulator to the same mnemonic and operand length, and to the same mode except a shift's implied column and SBC's swapped codes |
| Encoder.LsrZeroPageCell | src/main/java/com/lewisk/emulation/Assemble6502.java:77 | LSR $zp assembles to 0x4A, which the emulator runs as LSR A with no operand |
| Encoder.SbcCodesExchanged | src/main/java/com/lewisk/emulation/Assemble6502.java:88 | SBC abs and abs,X assemble to 0xED and 0xFD, which the emulator runs as each other |
| Encoder.Classify | src/main/java/com/lewisk/emulation/Assemble6502.java:155-165 | a pattern the search returns matches the operand |
| Encoder.PatternsExclusive | src/main/java/com/lewisk/emulation/Assemble6502.java:121-134 | no operand matches two of the thirteen patterns |
| Encoder.ClassifyFindsTheMatch | src/main/java/com/lewisk/emulation/Assemble6502.java:155-165 | the search returns a pattern iff the operand matches it, in any iteration order |
| Encoder.GetBytes | src/main/java/com/lewisk/emulation/Assemble6502.java:118-213 | null iff fewer than 3 characters remain without white space; throws iff a decimal immediate holds a hex letter; else the name, the lower-cased rest, and, exactly when a pattern matches, 1 + the mode's byte count bytes led by getOpcode |
| Encoder.OperandShape | src/main/java/com/lewisk/emulation/Assemble6502.java:180-203 | a matched operand yields as many bytes as the mode takes, each a byte, or throws exactly for a decimal immediate with a hex letter |
| Encoder.GetBytesLittleEndian | src/main/java/com/lewisk/emulation/Assemble6502.java:182-194 | hex operands are emitted least significant byte first: "$1234" gives 34 12 |
| Encoder.GetBytesDecimal | src/main/java/com/lewisk/emulation/Assemble6502.java:196-202 | a decimal immediate is its radix-10 value, capped at 255 |
| Encoder.GetBytesHexVariant | src/main/java/com/lewisk/emulation/Assemble6502.java:141-172 | changing the hex digits of an operand, keeping their count, changes neither the name, the pattern nor the byte count |
| Encoder.HexOperand | src/main/java/com/lewisk/emulation/Assemble6502.java:182-194 | the operand bytes of "… $hhhh …" are the value of the digits after the '$' |
| Assembler.PutGet | src/main/java/com/lewisk/emulation/Assemble6502.java:286 | after HashMap.put the key maps to the value and every other key is unchanged |
| Assembler.ReplaceGet | src/main/java/com/lewisk/emulation/Assemble6502.java:325 | HashMap.replace updates only a key already present and leaves the others unchanged |
| Assembler.FilterLine | src/main/java/com/lewisk/emulation/Assemble6502.java:237-252 | a trimmed line is dropped iff it is shorter than 3 or starts with ';'; otherwise it is kept up to its first ';' |
| Assembler.Filtered | src/main/java/com/lewisk/emulation/Assemble6502.java:237-252 | the kept lines are non-empty and hold no ';' |
| Assembler.Filter | src/main/java/com/lewisk/emulation/Assemble6502.java:236-252 | the loop builds Filtered(data) |
| Assembler.FrontLine | src/main/java/com/lewisk/emulation/Assemble6502.java:261-300 | one step of the backward scan changes no line above line i |
| Assembler.ReadLine | src/main/java/com/lewisk/emulation/Assemble6502.java:261-300 | the loop body computes FrontLine |
| Assembler.ReadDirectives | src/main/java/com/lewisk/emulation/Assemble6502.java:254-301 | the backward loop computes FrontEnd (see Directives.FrontEndResult) |
| Assembler.Placeholder | src/main/java/com/lewisk/emulation/Assemble6502.java:338-342 | the placeholder is a '$' and hex digits, five characters for JMP/JSR and three otherwise |
| Assembler.LineBytes | src/main/java/com/lewisk/emulation/Assemble6502.java:348-353 | a line's bytes exist iff getBytes returns bytes, and are at least one |
| Assembler.Sizes | src/main/java/com/lewisk/emulation/Assemble6502.java:305-356 | the outcome of every line |
| Assembler.SizesAre | src/main/java/com/lewisk/emulation/Assemble6502.java:305-356 | the per-line outcomes are unique |
| Assembler.SizeNext | src/main/java/com/lewisk/emulation/Assemble6502.java:305-356 | after a sized line: the line is stored back, a label it declares gets the count, and its bytes are added |
| Assembler.SizeFails | src/main/java/com/lewisk/emulation/Assemble6502.java:349-353 | once a line fails, the sizing pass fails |
| Assembler.SubstituteLine | src/main/java/com/lewisk/emulation/Assemble6502.java:310-318 | the variable loop computes SubstituteVars |
| Assembler.PlaceholderLine | src/main/java/com/lewisk/emulation/Assemble6502.java:332-345 | the label loop computes Placeholders |
| Assembler.SizeLine | src/main/java/com/lewisk/emulation/Assemble6502.java:307-353 | one line's outcome is SizeOf |
| Assembler.SizeLines | src/main/java/com/lewisk/emulation/Assemble6502.java:303-356 | the sizing loop computes Sized |
| Assembler.EmitUpTo | src/main/java/com/lewisk/emulation/Assemble6502.java:359-411 | the final pass's byteCount is always the number of bytes emitted |
| Assembler.EmitFails | src/main/java/com/lewisk/emulation/Assemble6502.java:401-406 | once a line fails, the final pass fails |
| Assembler.EmittedBy | src/main/java/com/lewisk/emulation/Assemble6502.java:359-411 | any per-line emission agreeing with LineEmit gives the pass Emitted |
| Assembler.ResolveLine | src/main/java/com/lewisk/emulation/Assemble6502.java:373-399 | the label loop computes Resolve |
| Assembler.EmitLine | src/main/java/com/lewisk/emulation/Assemble6502.java:362-406 | one line's bytes are LineEmit |
| Assembler.EmitLines | src/main/java/com/lewisk/emulation/Assemble6502.java:358-411 | the final loop computes Emitted |
| Assembler.Listed | src/main/java/com/lewisk/emulation/Assemble6502.java:415 | the listing loop visits every byte unless entry + count overflows a Java int |
| Assembler.List | src/main/java/com/lewisk/emulation/Assemble6502.java:413-428 | the listing loop computes Disassembly |
| Assembler.Assemble | src/main/java/com/lewisk/emulation/Assemble6502.java:231-439 | assemble(String[]) computes Assembled: the passes in turn |
| Directives.NonDirectives | src/main/java/com/lewisk/emulation/Assemble6502.java:274-287 | no kept line is a directive |
| Directives.FirstEntry | src/main/java/com/lewisk/emulation/Assemble6502.java:264 | the first .entry line, or none when no line is one |
| Directives.StepLine | src/main/java/com/lewisk/emulation/Assemble6502.java:261-300 | one step fails iff its line fails; a directive is removed; .entry sets the entry point; define records its variable; a label line records offset 0 |
| Directives.SomeFailsExists | src/main/java/com/lewisk/emulation/Assemble6502.java:259-301 | the recursive failure test holds iff some line fails |
| Directives.ScanFails | src/main/java/com/lewisk/emulation/Assemble6502.java:259-301 | the backward loop fails iff some line above i fails |
| Directives.ScanLines | src/main/java/com/lewisk/emulation/Assemble6502.java:259-301 | the loop removes the directives above i and keeps the rest in order |
| Directives.ScanEntry | src/main/java/com/lewisk/emulation/Assemble6502.java:259-301 | the loop leaves the topmost .entry value, or the entry point it started with |
| Directives.ScanLabels | src/main/java/com/lewisk/emulation/Assemble6502.java:259-301 | every label is recorded at offset 0 |
| Directives.FrontEndResult | src/main/java/com/lewisk/emulation/Assemble6502.java:254-301 | fails iff some line fails; else the non-directive lines in order, the topmost .entry value (0x0600 without one) and every label at 0 |
| Resolution.PlaceholdersNone | src/main/java/com/lewisk/emulation/Assemble6502.java:332-345 | the sizing pass leaves a line without label references unchanged |
| Resolution.ResolveNone | src/main/java/com/lewisk/emulation/Assemble6502.java:373-399 | so does the final pass |
| Resolution.PlaceholdersRefer | src/main/java/com/lewisk/emulation/Assemble6502.java:332-345 | the one label reference becomes the mnemonic's placeholder; the pass fails where getBytes does |
| Resolution.ResolveRefer | src/main/java/com/lewisk/emulation/Assemble6502.java:373-399 | the one label reference becomes the label's address text; the pass fails where getBytes does or the branch is out of range |
| Resolution.AddressWidth | src/main/java/com/lewisk/emulation/Assemble6502.java:380-397 | the resolved address is hex digits exactly as wide as the placeholder |
| Resolution.AddressParses | src/main/java/com/lewisk/emulation/Assemble6502.java:382-394 | the address parses back to entryPoint + offset, or to offs mod 256 with -127 <= offs <= 128 |
| Resolution.TokenSizes | src/main/java/com/lewisk/emulation/Assemble6502.java:348-355 | two lines differing in one hex token of equal width take as many bytes |
| Resolution.ReferenceSizes | src/main/java/com/lewisk/emulation/Assemble6502.java:331-410 | on a line referring to one label, the final pass succeeds only where sizing did, with as many bytes |
| Resolution.CodeSizes | src/main/java/com/lewisk/emulation/Assemble6502.java:331-410 | every hygienic line takes as many bytes in both passes |
| Resolution.SizedState | src/main/java/com/lewisk/emulation/Assemble6502.java:305-356 | sizing stores each visited line with its variables substituted, leaves the rest and keeps the label names |
| Resolution.LineAgrees | src/main/java/com/lewisk/emulation/Assemble6502.java:304-411 | a line's sized byte count equals the bytes it emits |
| Resolution.CountsAgree | src/main/java/com/lewisk/emulation/Assemble6502.java:304-411 | before every line both passes have counted the same number of bytes |
| Resolution.LabelOffset | src/main/java/com/lewisk/emulation/Assemble6502.java:320-325 | a label keeps the count before the last line that declares it |
| Resolution.EmitPrefix | src/main/java/com/lewisk/emulation/Assemble6502.java:408-410 | the bytes of the first j lines begin the bytes of the first n |
| Resolution.LabelCount | src/main/java/com/lewisk/emulation/Assemble6502.java:304-411 | a label's offset is the final pass's byteCount at the line that declares it |
| Resolution.LabelAddress | src/main/java/com/lewisk/emulation/Assemble6502.java:304-411 | the output holds exactly offset bytes before that line's own bytes |
| Resolution.TokenOperand | src/main/java/com/lewisk/emulation/Assemble6502.java:397-401 | a line's operand bytes are the value of the hex token after the mnemonic |
| Resolution.BranchOperand | src/main/java/com/lewisk/emulation/Assemble6502.java:386-397 | a branch gets offs = label - (byteCount + 2) in -127..128, whose byte reads back signed as offs (-128 for 128) |
| Resolution.JumpOperand | src/main/java/com/lewisk/emulation/Assemble6502.java:382-385 | a JMP/JSR operand word is entryPoint + the label's offset |
| Landing.BranchTo | src/main/java/com/lewisk/emulation/Opcode6502.java:18-27 | the branch at entry + byteCount lands on the label at entry + byteCount + 2 + offs, 256 short when offs = 128 |
| Landing.JumpReachesLabel | src/main/java/com/lewisk/emulation/Assemble6502.java:382-385 | an assembled JMP to a label sends the processor to entryPoint + the label's offset |
| Landing.JumpTo | src/main/java/com/lewisk/emulation/Opcode6502.java:779-783 | JMP continues at its operand word |
| Landing.CallReachesLabel | src/main/java/com/lewisk/emulation/Assemble6502.java:382-385 | an assembled JSR to a label, operand off the stack page, sends the processor to the label |
| Landing.CallTo | src/main/java/com/lewisk/emulation/Opcode6502.java:791-804 | JSR continues at its operand word when that lies off the stack page |
| RoundTrip.ListingRows | src/main/java/com/lewisk/emulation/Assemble6502.java:413-428 | the rows are the 16-byte chunks of the output, then the rest, each "aaaa: bb bb … " |
| RoundTrip.EmptyListing | src/main/java/com/lewisk/emulation/Assemble6502.java:413-428 | an empty program is listed as one empty row |
| RoundTrip.ImportRow | src/main/java/com/lewisk/emulation/CPU6502.java:190-203 | importing one row writes its bytes from its address |
| RoundTrip.ChunksAppend | src/main/java/com/lewisk/emulation/Assemble6502.java:415-427 | a further full chunk adds its row at the end |
| RoundTrip.ImportWordsRam | src/main/java/com/lewisk/emulation/CPU6502.java:163 | writing a sequence from an address with room sets exactly those cells |
| RoundTrip.ImportListing | src/main/java/com/lewisk/emulation/CPU6502.java:179-205 | importing the listing of a non-empty program succeeds and writes it from the entry point |
| RoundTrip.ListingLoads | src/main/java/com/lewisk/emulation/Assemble6502.java:413-438 | importing the listing succeeds iff the program is non-empty, puts byte i at entry + i and leaves every other cell |
| Cpu6502.Initial | src/main/java/com/lewisk/emulation/CPU6502.java:90-102 | the power-on machine has its 64 KiB of RAM (its fields are stated through Cpu.constructor) |
| Cpu6502.Write | src/main/java/com/lewisk/emulation/CPU6502.java:131-137 | a write keeps the 64 KiB of RAM; what it stores is WriteEffect |
| Cpu6502.WriteWithFlags | src/main/java/com/lewisk/emulation/CPU6502.java:139-143 | writeRAM_WithFlags keeps the 64 KiB of RAM |
| Cpu6502.NextByte | src/main/java/com/lewisk/emulation/CPU6502.java:145-148 | fetching the byte after PC keeps the 64 KiB of RAM |
| Cpu6502.Push | src/main/java/com/lewisk/emulation/CPU6502.java:265-268 | a push keeps the 64 KiB of RAM; its effect is PopAfterPush and PushAllCell |
| Cpu6502.Pop | src/main/java/com/lewisk/emulation/CPU6502.java:270-273 | a pop keeps the 64 KiB of RAM; its effect is PopAfterPush and PopManyCell |
| Cpu6502.PushAddress | src/main/java/com/lewisk/emulation/CPU6502.java:275-281 | pushPC keeps the 64 KiB of RAM; its effect is PopAddressAfterPushAddress |
| Cpu6502.PopAddress | src/main/java/com/lewisk/emulation/CPU6502.java:283-288 | popPC keeps the 64 KiB of RAM |
| Cpu6502.PopMany | src/main/java/com/lewisk/emulation/CPU6502.java:270-273 | n pops return exactly n bytes |
| Cpu6502.ImportWords | src/main/java/com/lewisk/emulation/CPU6502.java:163 | importRAM(short, int...) keeps the 64 KiB of RAM; what it writes is RoundTrip.ImportWordsRam |
| Cpu6502.ImportLine | src/main/java/com/lewisk/emulation/CPU6502.java:188-204 | importing one row keeps the 64 KiB of RAM; what it writes is RoundTrip.ImportRow |
| Cpu6502.ImportLines | src/main/java/com/lewisk/emulation/CPU6502.java:179-205 | importing rows keeps the 64 KiB of RAM; what it writes is RoundTrip.ImportListing |
| Opcode6502.Load | src/main/java/com/lewisk/emulation/Opcode6502.java:76-167 | LDA/LDX/LDY keep RAM size and timing and move PC past the operand (their effect is LoadEffect) |
| Opcode6502.Store | src/main/java/com/lewisk/emulation/Opcode6502.java:169-235 | STA/STX/STY keep RAM size and timing and move PC past the operand (their effect is StoreEffect) |
| Opcode6502.Transfer | src/main/java/com/lewisk/emulation/Opcode6502.java:237-266 | the transfers keep timing and leave PC alone (their effect is TransferEffect) |
| Opcode6502.Adc | src/main/java/com/lewisk/emulation/Opcode6502.java:60-65 | doADC keeps RAM size and timing (its effect is AdcResult) |
| Opcode6502.Sbc | src/main/java/com/lewisk/emulation/Opcode6502.java:66-71 | doSBC keeps RAM size and timing (its effect is SbcResult) |
| Opcode6502.Arith | src/main/java/com/lewisk/emulation/Opcode6502.java:269-349 | the ADC/SBC arms keep timing and move PC past the operand |
| Opcode6502.IncDecAt | src/main/java/com/lewisk/emulation/Opcode6502.java:351-411 | an INC/DEC at an address keeps RAM size and timing (its effect is IncDecEffect) |
| Opcode6502.Count | src/main/java/com/lewisk/emulation/Opcode6502.java:376-423 | INX/INY/DEX/DEY keep timing and leave PC alone (their effect is CountEffect) |
| Opcode6502.ShiftAt | src/main/java/com/lewisk/emulation/Opcode6502.java:28-59 | doROL/doROR/doLSR/doASL keep RAM size and timing (their effect is ShiftAtEffect) |
| Opcode6502.ShiftAccumulator | src/main/java/com/lewisk/emulation/Opcode6502.java:549-640 | the accumulator shifts keep RAM size and timing (their effect is ShiftAccumulatorEffect) |
| Opcode6502.Compare | src/main/java/com/lewisk/emulation/Opcode6502.java:687-759 | CMP/CPX/CPY keep timing and move PC past the operand (their effect is CompareEffect) |
| Opcode6502.BitTest | src/main/java/com/lewisk/emulation/Opcode6502.java:760-776 | BIT keeps timing and moves PC past the operand (its effect is BitTestEffect) |
| Opcode6502.JumpAbsolute | src/main/java/com/lewisk/emulation/Opcode6502.java:779-783 | JMP abs keeps RAM size and timing (where it lands is Execution.JumpAbsoluteLands) |
| Opcode6502.JumpIndirect | src/main/java/com/lewisk/emulation/Opcode6502.java:784-789 | JMP ind keeps RAM size and timing (where it lands is Execution.JumpIndirectLands) |
| Opcode6502.Jump | src/main/java/com/lewisk/emulation/Opcode6502.java:779-789 | both JMP arms keep RAM size and timing |
| Opcode6502.JumpSubroutine | src/main/java/com/lewisk/emulation/Opcode6502.java:791-804 | JSR keeps RAM size and timing (where it lands is Execution.CallLands) |
| Opcode6502.ReturnFromInterrupt | src/main/java/com/lewisk/emulation/Opcode6502.java:867-872 | RTI keeps RAM size and timing (its effect is InterruptRoundTrip) |
| Opcode6502.Interrupt | src/main/java/com/lewisk/emulation/Opcode6502.java:874-881 | BRK keeps RAM size and timing (its effect is InterruptEffect) |
| Opcode6502.Move | src/main/java/com/lewisk/emulation/Opcode6502.java:76-266 | the load, store, transfer and stack arms keep timing and move PC past the operand and no further |
| Opcode6502.Compute | src/main/java/com/lewisk/emulation/Opcode6502.java:269-776 | the arithmetic, logic, shift, compare and BIT arms keep timing and move PC past the operand |
| Opcode6502.Control | src/main/java/com/lewisk/emulation/Opcode6502.java:779-882 | the arms that set PC keep timing and return the table's cycles, or 2 or 3 for a branch |
| Opcode6502.FlagOrNop | src/main/java/com/lewisk/emulation/Opcode6502.java:828-884 | the flag instructions and NOP keep timing and leave PC alone (their effect is FlagOpEffect and NopEffect) |
| Opcode6502.ResolveAddress | src/main/java/com/lewisk/emulation/CPU6502.java:213-238 | the machine and address of Resolve |
| Opcode6502.ReadOperand | src/main/java/com/lewisk/emulation/Opcode6502.java:76-167 | the machine and byte of Operand |
| Opcode6502.ArithValue | src/main/java/com/lewisk/emulation/Opcode6502.java:269-349 | the machine and value of ArithOperand |
| Opcode6502.RegOf | src/main/java/com/lewisk/emulation/CPU6502.java:330-344 | the register's value in the machine |
| Opcode6502.IncDecRam | src/main/java/com/lewisk/emulation/Opcode6502.java:351-411 | the machine of IncDecAt |
| Opcode6502.ShiftA | src/main/java/com/lewisk/emulation/Opcode6502.java:549-640 | the machine of ShiftAccumulator |
| Opcode6502.ShiftRam | src/main/java/com/lewisk/emulation/Opcode6502.java:28-59 | the machine of ShiftAt |
| Opcode6502.JumpAbsoluteArm | src/main/java/com/lewisk/emulation/Opcode6502.java:779-783 | the machine of JumpAbsolute |
| Opcode6502.JumpIndirectArm | src/main/java/com/lewisk/emulation/Opcode6502.java:784-789 | the machine of JumpIndirect |
| Opcode6502.DoMove | src/main/java/com/lewisk/emulation/Opcode6502.java:76-266 | the machine of Move |
| Opcode6502.DoCompute | src/main/java/com/lewisk/emulation/Opcode6502.java:269-776 | the machine of Compute |
| Opcode6502.DoControl | src/main/java/com/lewisk/emulation/Opcode6502.java:779-882 | the machine and cycles of Control |
| Opcode6502.DecodeFixed | src/main/java/com/lewisk/emulation/Opcode6502.java:874-884 | 0xEA decodes to NOP (2 cycles) and 0x00 to BRK (7 cycles) |
| Opcode6502.ReturnFromInterruptReads | src/main/java/com/lewisk/emulation/Opcode6502.java:867-872 | RTI from a stack holding the status byte and a return address yields those flags, the PC and SP that popPC gives, and keeps A, X and Y |
| Execution.AfterTick | src/main/java/com/lewisk/emulation/CPU6502.java:459-473 | one pass of the loop keeps the 64 KiB of RAM |
| Execution.PushAddressKeepsOperand | src/main/java/com/lewisk/emulation/Opcode6502.java:791-804 | pushPC does not change an operand that lies off the stack page |
| Assembler.Keys | src/main/java/com/lewisk/emulation/Assemble6502.java:310 | keySet lists each entry's key, one per entry |
| Assembler.PutKeys | src/main/java/com/lewisk/emulation/Assemble6502.java:286 | put keeps the key set when the key is present and adds it at the end otherwise |
| Assembler.ReplaceKeys | src/main/java/com/lewisk/emulation/Assemble6502.java:325 | replace never changes the key set |
| Assembler.FrontEnd | src/main/java/com/lewisk/emulation/Assemble6502.java:254-301 | the entry point the front end leaves is a Java int |
| Isa.Name | src/main/java/com/lewisk/emulation/Assemble6502.java:45-100 | every mnemonic is three letters |
| Text.TrimStart | src/main/java/com/lewisk/emulation/Assemble6502.java:237 | trim removes a prefix and leaves no leading blank |
| Text.TrimEnd | src/main/java/com/lewisk/emulation/Assemble6502.java:237 | trim removes a suffix and leaves no trailing blank |
| Text.Upper | src/main/java/com/lewisk/emulation/Assemble6502.java:102 | toUpperCase maps each character, keeping the length |
| Text.PiecesAfter | src/main/java/com/lewisk/emulation/CPU6502.java:192-193 | splitting at the first separator gives the part before it, then the pieces of the rest |
| Text.SplitDropsLast | src/main/java/com/lewisk/emulation/CPU6502.java:192-193 | String.split drops the one trailing empty piece |
| Text.ReplaceAbsent | src/main/java/com/lewisk/emulation/Assemble6502.java:397 | replace of a string that does not occur changes nothing |
| Text.WordBetween | src/main/java/com/lewisk/emulation/Assemble6502.java:375-376 | a name between separators matches ".*\\bname\\b.*" |
| Text.WordOutsideToken | src/main/java/com/lewisk/emulation/Assemble6502.java:375-376 | a whole-word occurrence of a name in a line with a token between separators lies before the token, after it, or is the token's own word |
| Encoder.DecimalDigits | src/main/java/com/lewisk/emulation/Assemble6502.java:196-203 | Integer.parseInt(_, 10) of hex digits succeeds iff they are all decimal, with a value below 10^length |
| Encoder.DecimalShape | src/main/java/com/lewisk/emulation/Assemble6502.java:196-203 | a decimal immediate throws iff it holds a hex letter, and otherwise gives one byte |
| Encoder.PairsReversedBytes | src/main/java/com/lewisk/emulation/Assemble6502.java:186-194 | hex digits read in pairs from the end give one byte per pair, last pair first |
| Encoder.GetBytesOperands | src/main/java/com/lewisk/emulation/Assemble6502.java:180-203 | after the opcode, a successful getBytes holds exactly the operand bytes decoded from its arguments |
| RoundTrip.Hexes | src/main/java/com/lewisk/emulation/Assemble6502.java:424-426 | each listed byte is written as two hex digits |
| RoundTrip.HexField | src/main/java/com/lewisk/emulation/Assemble6502.java:424-426 | a formatted field has its width, is hex, and parses back to its value |
| RoundTrip.SplitRow | src/main/java/com/lewisk/emulation/CPU6502.java:192 | a listing row splits at ':' into its address and its codes |
| RoundTrip.PiecesCodes | src/main/java/com/lewisk/emulation/CPU6502.java:193 | the codes split at ' ' into the byte fields and one trailing empty piece |
| RoundTrip.SplitCodes | src/main/java/com/lewisk/emulation/CPU6502.java:193 | after the ':' the row splits into one empty piece and the byte fields |
| RoundTrip.ImportHexes | src/main/java/com/lewisk/emulation/CPU6502.java:196-203 | importing the byte fields succeeds and writes the bytes in order |
| RoundTrip.RowFields | src/main/java/com/lewisk/emulation/CPU6502.java:188-204 | a row's address field parses to its address and its code fields are the bytes |
| RoundTrip.ImportWordsAppend | src/main/java/com/lewisk/emulation/CPU6502.java:163 | writing x + y is writing x, then y after it |
| RoundTrip.ImportChunks | src/main/java/com/lewisk/emulation/CPU6502.java:179-205 | importing the full 16-byte rows writes their bytes from the first address |
| RoundTrip.ImportLastRow | src/main/java/com/lewisk/emulation/CPU6502.java:179-205 | importing one row alone succeeds and writes its bytes |
| Resolution.GetKeys | src/main/java/com/lewisk/emulation/Assemble6502.java:372-376 | a key is present iff it is among keySet's keys, with its entry in the map |
| Resolution.PlainSizes | src/main/java/com/lewisk/emulation/Assemble6502.java:372-399 | a line naming no label is left unchanged by the final pass |
| Resolution.LineFollows | src/main/java/com/lewisk/emulation/Assemble6502.java:401-410 | line j's own bytes come right after those of lines 0..j-1, as a prefix of the whole output |
| Resolution.ResolvedText | src/main/java/com/lewisk/emulation/Assemble6502.java:372-399 | on a line naming one label, the final pass replaces that reference, and only it, with a '$' address of hex digits, five characters for JMP/JSR |

## Left out

- `Main.java`, the JavaFX window and key handling, are not part of this model. So are the
  colour table, the full-screen `DrawVRAM()`, `printRAM`, `getCPUInfo`, `stepPrompt` and the
  console diagnostics. A display write is logged as a pixel event whether or not a display is
  attached.
- `run()` is modelled as one pass of its loop body (`RunTick`), plus the restart at its top
  (`Start`). The loop itself, `Thread.interrupted`, the wall-clock pacing
  (`hertzToNanoseconds`, `clockspeed`, floating point) and `java.util.Random` are left out. The
  clock becomes the parameter `clockDue`, and the random byte becomes the parameter `random`.
- `importRAM(String file)` and `assemble(String file)` read resources and are left out. Their
  `String[]` versions are modelled.
- Execution.AfterInstruction: the catch arm of `executeInstruction` is not modelled. No handler
  can throw, because every RAM index is an unsigned 16-bit address.
- `getBytes`' `outputInfo` text and the `outputData` field are left out, because nothing reads
  them.
- Java regexes are not modelled in general. Only the thirteen operand patterns, `\s`, `\b`,
  the directive patterns and the name-token split are written out, for ASCII text.
  - A variable or label name containing regex metacharacters would behave differently in
    Java.
  - `toLowerCase`/`toUpperCase` are modelled for ASCII only.
- HashMap iteration order is unspecified in Java. The model takes the order of first
  insertion. The operand patterns are proved exclusive, so there the order cannot matter.
- Null results, thrown exceptions and `return null` are merged into one failure outcome
  (`None`, `Thrown`, `false`). This includes the out-of-range diagnostic, whose format string
  would itself throw.
- `byteCount` in the two passes is an unbounded integer. A program of 2^31 bytes, where the
  Java int would wrap, is not modelled. The listing loop's own int bound is modelled (`Listed`).
- Resolution.CodeSizes: proved only for lines that name at most one label, once, as the
  operand token after the mnemonic. The label names must not look like hex digits, and no
  jump target may lie beyond 0xFFFF. `replace` is not word-bounded, so other lines can have
  their text rewritten in ways the model computes but about which nothing is proved.
- Resolution.CountsAgree, Resolution.LabelCount and Resolution.LabelAddress: these carry the
  same assumptions as CodeSizes.
- Landing.BranchTo: the end-to-end branch result is the composition of two lemmas.
  Resolution.BranchOperand gives the byte the assembler writes, and BranchTo gives where the
  processor goes with it. No single lemma starts from the source text.
- Landing.CallReachesLabel: stated for a JSR whose operand bytes are outside the stack page.
  JSR pushes before it reads its operand, so an operand inside the page is read after the
  push.
- RoundTrip.ListingLoads: stated for an entry point that is a multiple of 16 and a program
  that ends by 0x10000. For any other entry point the first row gets no address prefix, and
  `importRAM` fails on it.
- Opcode6502.Decode: its contract states only the family and cycle bounds. Encoder.TableAgreesWithDecoder
  and the effect lemmas state what the table holds.
- Opcode6502.Operand, Opcode6502.IncDec, Opcode6502.Bitwise, Opcode6502.Shift,
  Opcode6502.StackOp and Opcode6502.Branch: their own contracts state only the frame and the
  PC advance. Their effects are stated by separate lemmas:
  - the `…Effect` lemmas, among them BitwiseEffect for Bitwise, ShiftEffect and
    ShiftAccumulatorEffect for Shift, and BranchEffect for Branch;
  - PushPullAccumulator and PushPullStatus for StackOp.
