/** The 6502 instruction set as both halves of the project name it: the 56 mnemonics and the
    twelve addressing modes, in the column order of the assembler's opcode table
    (Assemble6502.getOpcode). */
module Isa {
  import opened Wrappers

  datatype Mnemonic =
      ADC | AND | ASL | BCC | BCS | BEQ | BIT | BMI
    | BNE | BPL | BRK | BVC | BVS | CLC | CLD | CLI
    | CLV | CMP | CPX | CPY | DEC | DEX | DEY | EOR
    | INC | INX | INY | JMP | JSR | LDA | LDX | LDY
    | LSR | NOP | ORA | PHA | PHP | PLA | PLP | ROL
    | ROR | RTI | RTS | SBC | SEC | SED | SEI | STA
    | STX | STY | TAX | TAY | TSX | TXA | TXS | TYA

  /** ACC, IMP, IMM, ZP, ZPX, ZPY, ABS, ABX, ABY, IN, INX, INY. */
  datatype Mode = Acc | Imp | Imm | Zp | Zpx | Zpy | Abs | Abx | Aby | Ind | Inx | Iny

  /** The column of the mode in the opcode table (`ModeData.ID`). */
  function ModeId(m: Mode): (id: nat)
    ensures id < 12
  {
    match m
    case Acc => 0
    case Imp => 1
    case Imm => 2
    case Zp => 3
    case Zpx => 4
    case Zpy => 5
    case Abs => 6
    case Abx => 7
    case Aby => 8
    case Ind => 9
    case Inx => 10
    case Iny => 11
  }

  /** Distinct modes have distinct columns. */
  lemma ModeIdInjective(m: Mode, n: Mode)
    ensures ModeId(m) == ModeId(n) ==> m == n
  {
  }

  /** The upper-case name of a mnemonic, the key of the opcode table. */
  function Name(m: Mnemonic): (s: string)
    ensures |s| == 3
  {
    match m
    case ADC => "ADC"
    case AND => "AND"
    case ASL => "ASL"
    case BCC => "BCC"
    case BCS => "BCS"
    case BEQ => "BEQ"
    case BIT => "BIT"
    case BMI => "BMI"
    case BNE => "BNE"
    case BPL => "BPL"
    case BRK => "BRK"
    case BVC => "BVC"
    case BVS => "BVS"
    case CLC => "CLC"
    case CLD => "CLD"
    case CLI => "CLI"
    case CLV => "CLV"
    case CMP => "CMP"
    case CPX => "CPX"
    case CPY => "CPY"
    case DEC => "DEC"
    case DEX => "DEX"
    case DEY => "DEY"
    case EOR => "EOR"
    case INC => "INC"
    case INX => "INX"
    case INY => "INY"
    case JMP => "JMP"
    case JSR => "JSR"
    case LDA => "LDA"
    case LDX => "LDX"
    case LDY => "LDY"
    case LSR => "LSR"
    case NOP => "NOP"
    case ORA => "ORA"
    case PHA => "PHA"
    case PHP => "PHP"
    case PLA => "PLA"
    case PLP => "PLP"
    case ROL => "ROL"
    case ROR => "ROR"
    case RTI => "RTI"
    case RTS => "RTS"
    case SBC => "SBC"
    case SEC => "SEC"
    case SED => "SED"
    case SEI => "SEI"
    case STA => "STA"
    case STX => "STX"
    case STY => "STY"
    case TAX => "TAX"
    case TAY => "TAY"
    case TSX => "TSX"
    case TXA => "TXA"
    case TXS => "TXS"
    case TYA => "TYA"
  }

  /** How many operand bytes follow the opcode in each mode (`ModeData.byteCount`). */
  function OperandBytes(m: Mode): (n: nat)
    ensures n <= 2
    ensures n == 0 <==> m == Acc || m == Imp
  {
    match m
    case Acc | Imp => 0
    case Imm | Zp | Zpx | Zpy | Inx | Iny => 1
    case Abs | Abx | Aby | Ind => 2
  }

  /** The modes whose operand names a cell in memory. */
  predicate IsMemoryMode(mode: Mode)
  {
    mode.Zp? || mode.Zpx? || mode.Zpy? || mode.Abs? || mode.Abx? || mode.Aby?
    || mode.Inx? || mode.Iny?
  }

  /** The modes whose operand is a value: the immediate byte or a byte in memory. */
  predicate IsValueMode(mode: Mode)
  {
    mode.Imm? || IsMemoryMode(mode)
  }

  /** The branches, whose one operand byte is a signed displacement. They sit in the
      zero-page column of the opcode table. */
  predicate IsBranch(m: Mnemonic)
  {
    (m.BCC? || m.BCS? || m.BEQ? || m.BMI? || m.BNE? || m.BPL? || m.BVC? || m.BVS?)
  }

  /** The instructions that take no operand: they sit only in the implied column. */
  predicate IsImplied(m: Mnemonic)
  {
    m.BRK? || m.CLC? || m.CLD? || m.CLI? || m.CLV? || m.DEX? || m.DEY?
    || m.INX? || m.INY? || m.NOP? || m.PHA? || m.PHP? || m.PLA? || m.PLP?
    || m.RTI? || m.RTS? || m.SEC? || m.SED? || m.SEI? || m.TAX? || m.TAY?
    || m.TSX? || m.TXA? || m.TXS? || m.TYA?
  }

  /** Which class of column each family of instructions sits in: the stores, INC, DEC and BIT
      address memory; the loads, the arithmetic and logic instructions and the compares take a
      value; the shifts work on A or on memory; JMP is absolute or indirect; the rest take no
      operand. */
  predicate OperandFits(m: Mnemonic, mode: Mode)
  {
    ((m.STA? || m.STX? || m.STY? || m.INC? || m.DEC? || m.BIT?) ==> IsMemoryMode(mode))
    && ((IsAluOp(m) || m.CPX? || m.CPY? || m.LDX? || m.LDY?) ==> IsValueMode(mode))
    && (IsShift(m) ==> mode.Acc? || IsMemoryMode(mode))
    && (m.JMP? ==> mode.Abs? || mode.Ind?)
    && (IsImplied(m) ==> mode.Imp?)
  }

  /** The seven instructions that take an operand in all eight operand modes: ADC, AND,
      CMP, EOR, LDA, ORA, SBC. */
  predicate IsAluOp(m: Mnemonic)
  {
    m.ADC? || m.AND? || m.CMP? || m.EOR? || m.LDA? || m.ORA? || m.SBC?
  }

  predicate IsShift(m: Mnemonic)
  {
    m.ASL? || m.LSR? || m.ROL? || m.ROR?
  }

  /** The mnemonic whose name is exactly `s`, if any: the key lookup of the opcode table. */
  function ParseMnemonic(s: string): Option<Mnemonic>
  {
    match s
    case "ADC" => Some(ADC)
    case "AND" => Some(AND)
    case "ASL" => Some(ASL)
    case "BCC" => Some(BCC)
    case "BCS" => Some(BCS)
    case "BEQ" => Some(BEQ)
    case "BIT" => Some(BIT)
    case "BMI" => Some(BMI)
    case "BNE" => Some(BNE)
    case "BPL" => Some(BPL)
    case "BRK" => Some(BRK)
    case "BVC" => Some(BVC)
    case "BVS" => Some(BVS)
    case "CLC" => Some(CLC)
    case "CLD" => Some(CLD)
    case "CLI" => Some(CLI)
    case "CLV" => Some(CLV)
    case "CMP" => Some(CMP)
    case "CPX" => Some(CPX)
    case "CPY" => Some(CPY)
    case "DEC" => Some(DEC)
    case "DEX" => Some(DEX)
    case "DEY" => Some(DEY)
    case "EOR" => Some(EOR)
    case "INC" => Some(INC)
    case "INX" => Some(INX)
    case "INY" => Some(INY)
    case "JMP" => Some(JMP)
    case "JSR" => Some(JSR)
    case "LDA" => Some(LDA)
    case "LDX" => Some(LDX)
    case "LDY" => Some(LDY)
    case "LSR" => Some(LSR)
    case "NOP" => Some(NOP)
    case "ORA" => Some(ORA)
    case "PHA" => Some(PHA)
    case "PHP" => Some(PHP)
    case "PLA" => Some(PLA)
    case "PLP" => Some(PLP)
    case "ROL" => Some(ROL)
    case "ROR" => Some(ROR)
    case "RTI" => Some(RTI)
    case "RTS" => Some(RTS)
    case "SBC" => Some(SBC)
    case "SEC" => Some(SEC)
    case "SED" => Some(SED)
    case "SEI" => Some(SEI)
    case "STA" => Some(STA)
    case "STX" => Some(STX)
    case "STY" => Some(STY)
    case "TAX" => Some(TAX)
    case "TAY" => Some(TAY)
    case "TSX" => Some(TSX)
    case "TXA" => Some(TXA)
    case "TXS" => Some(TXS)
    case "TYA" => Some(TYA)
    case _ => None
  }
}
