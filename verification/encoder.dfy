/** The instruction encoder of Assemble6502.java: `getOpcode`, the mnemonic x mode opcode table,
    and `getBytes`, which strips a source line of white space, splits off the three-letter
    mnemonic, classifies the rest into one of thirteen operand patterns and emits the opcode
    followed by the operand bytes, little-endian. */
module Encoder {
  import opened Wrappers
  import opened Text
  import opened Isa
  import opened Bits
  import opened Opcode6502

  // ================================================================ the opcode table

  /** One row of the opcode table: a code per addressing mode, 0xFF where the mnemonic does not
      have the mode. */
  datatype TableRow = TableRow(acc: int, imp: int, imm: int, zp: int, zpx: int, zpy: int,
                               abs: int, abx: int, aby: int, ind: int, inx: int, iny: int)

  /** The row of the opcode table for a mnemonic, in the columns ACC, IMP, IMM, ZP, ZPX, ZPY,
      ABS, ABX, ABY, IN, INX, INY. The branches sit in the ZP column; LSR's ZP cell holds 0x4A,
      the code of LSR A. */
  function Row(m: Mnemonic): TableRow
  {
    match m
    case ADC => TableRow(0xFF, 0xFF, 0x69, 0x65, 0x75, 0xFF, 0x6D, 0x7D, 0x79, 0xFF, 0x61, 0x71)
    case AND => TableRow(0xFF, 0xFF, 0x29, 0x25, 0x35, 0xFF, 0x2D, 0x3D, 0x39, 0xFF, 0x21, 0x31)
    case ASL => TableRow(0x0A, 0x0A, 0xFF, 0x06, 0x16, 0xFF, 0x0E, 0x1E, 0xFF, 0xFF, 0xFF, 0xFF)
    case BCC => TableRow(0xFF, 0xFF, 0xFF, 0x90, 0xFF, 0xFF, 0xFF, 0xFF, 0xFF, 0xFF, 0xFF, 0xFF)
    case BCS => TableRow(0xFF, 0xFF, 0xFF, 0xB0, 0xFF, 0xFF, 0xFF, 0xFF, 0xFF, 0xFF, 0xFF, 0xFF)
    case BEQ => TableRow(0xFF, 0xFF, 0xFF, 0xF0, 0xFF, 0xFF, 0xFF, 0xFF, 0xFF, 0xFF, 0xFF, 0xFF)
    case BIT => TableRow(0xFF, 0xFF, 0xFF, 0x24, 0xFF, 0xFF, 0x2C, 0xFF, 0xFF, 0xFF, 0xFF, 0xFF)
    case BMI => TableRow(0xFF, 0xFF, 0xFF, 0x30, 0xFF, 0xFF, 0xFF, 0xFF, 0xFF, 0xFF, 0xFF, 0xFF)
    case BNE => TableRow(0xFF, 0xFF, 0xFF, 0xD0, 0xFF, 0xFF, 0xFF, 0xFF, 0xFF, 0xFF, 0xFF, 0xFF)
    case BPL => TableRow(0xFF, 0xFF, 0xFF, 0x10, 0xFF, 0xFF, 0xFF, 0xFF, 0xFF, 0xFF, 0xFF, 0xFF)
    case BRK => TableRow(0xFF, 0x00, 0xFF, 0xFF, 0xFF, 0xFF, 0xFF, 0xFF, 0xFF, 0xFF, 0xFF, 0xFF)
    case BVC => TableRow(0xFF, 0xFF, 0xFF, 0x50, 0xFF, 0xFF, 0xFF, 0xFF, 0xFF, 0xFF, 0xFF, 0xFF)
    case BVS => TableRow(0xFF, 0xFF, 0xFF, 0x70, 0xFF, 0xFF, 0xFF, 0xFF, 0xFF, 0xFF, 0xFF, 0xFF)
    case CLC => TableRow(0xFF, 0x18, 0xFF, 0xFF, 0xFF, 0xFF, 0xFF, 0xFF, 0xFF, 0xFF, 0xFF, 0xFF)
    case CLD => TableRow(0xFF, 0xD8, 0xFF, 0xFF, 0xFF, 0xFF, 0xFF, 0xFF, 0xFF, 0xFF, 0xFF, 0xFF)
    case CLI => TableRow(0xFF, 0x58, 0xFF, 0xFF, 0xFF, 0xFF, 0xFF, 0xFF, 0xFF, 0xFF, 0xFF, 0xFF)
    case CLV => TableRow(0xFF, 0xB8, 0xFF, 0xFF, 0xFF, 0xFF, 0xFF, 0xFF, 0xFF, 0xFF, 0xFF, 0xFF)
    case CMP => TableRow(0xFF, 0xFF, 0xC9, 0xC5, 0xD5, 0xFF, 0xCD, 0xDD, 0xD9, 0xFF, 0xC1, 0xD1)
    case CPX => TableRow(0xFF, 0xFF, 0xE0, 0xE4, 0xFF, 0xFF, 0xEC, 0xFF, 0xFF, 0xFF, 0xFF, 0xFF)
    case CPY => TableRow(0xFF, 0xFF, 0xC0, 0xC4, 0xFF, 0xFF, 0xCC, 0xFF, 0xFF, 0xFF, 0xFF, 0xFF)
    case DEC => TableRow(0xFF, 0xFF, 0xFF, 0xC6, 0xD6, 0xFF, 0xCE, 0xDE, 0xFF, 0xFF, 0xFF, 0xFF)
    case DEX => TableRow(0xFF, 0xCA, 0xFF, 0xFF, 0xFF, 0xFF, 0xFF, 0xFF, 0xFF, 0xFF, 0xFF, 0xFF)
    case DEY => TableRow(0xFF, 0x88, 0xFF, 0xFF, 0xFF, 0xFF, 0xFF, 0xFF, 0xFF, 0xFF, 0xFF, 0xFF)
    case EOR => TableRow(0xFF, 0xFF, 0x49, 0x45, 0x55, 0xFF, 0x4D, 0x5D, 0x59, 0xFF, 0x41, 0x51)
    case INC => TableRow(0xFF, 0xFF, 0xFF, 0xE6, 0xF6, 0xFF, 0xEE, 0xFE, 0xFF, 0xFF, 0xFF, 0xFF)
    case INX => TableRow(0xFF, 0xE8, 0xFF, 0xFF, 0xFF, 0xFF, 0xFF, 0xFF, 0xFF, 0xFF, 0xFF, 0xFF)
    case INY => TableRow(0xFF, 0xC8, 0xFF, 0xFF, 0xFF, 0xFF, 0xFF, 0xFF, 0xFF, 0xFF, 0xFF, 0xFF)
    case JMP => TableRow(0xFF, 0xFF, 0xFF, 0xFF, 0xFF, 0xFF, 0x4C, 0xFF, 0xFF, 0x6C, 0xFF, 0xFF)
    case JSR => TableRow(0xFF, 0xFF, 0xFF, 0xFF, 0xFF, 0xFF, 0x20, 0xFF, 0xFF, 0xFF, 0xFF, 0xFF)
    case LDA => TableRow(0xFF, 0xFF, 0xA9, 0xA5, 0xB5, 0xFF, 0xAD, 0xBD, 0xB9, 0xFF, 0xA1, 0xB1)
    case LDX => TableRow(0xFF, 0xFF, 0xA2, 0xA6, 0xFF, 0xB6, 0xAE, 0xFF, 0xBE, 0xFF, 0xFF, 0xFF)
    case LDY => TableRow(0xFF, 0xFF, 0xA0, 0xA4, 0xB4, 0xFF, 0xAC, 0xBC, 0xFF, 0xFF, 0xFF, 0xFF)
    case LSR => TableRow(0x4A, 0x4A, 0xFF, 0x4A, 0x56, 0xFF, 0x4E, 0x5E, 0xFF, 0xFF, 0xFF, 0xFF)
    case NOP => TableRow(0xFF, 0xEA, 0xFF, 0xFF, 0xFF, 0xFF, 0xFF, 0xFF, 0xFF, 0xFF, 0xFF, 0xFF)
    case ORA => TableRow(0xFF, 0xFF, 0x09, 0x05, 0x15, 0xFF, 0x0D, 0x1D, 0x19, 0xFF, 0x01, 0x11)
    case PHA => TableRow(0xFF, 0x48, 0xFF, 0xFF, 0xFF, 0xFF, 0xFF, 0xFF, 0xFF, 0xFF, 0xFF, 0xFF)
    case PHP => TableRow(0xFF, 0x08, 0xFF, 0xFF, 0xFF, 0xFF, 0xFF, 0xFF, 0xFF, 0xFF, 0xFF, 0xFF)
    case PLA => TableRow(0xFF, 0x68, 0xFF, 0xFF, 0xFF, 0xFF, 0xFF, 0xFF, 0xFF, 0xFF, 0xFF, 0xFF)
    case PLP => TableRow(0xFF, 0x28, 0xFF, 0xFF, 0xFF, 0xFF, 0xFF, 0xFF, 0xFF, 0xFF, 0xFF, 0xFF)
    case ROL => TableRow(0x2A, 0x2A, 0xFF, 0x26, 0x36, 0xFF, 0x2E, 0x3E, 0xFF, 0xFF, 0xFF, 0xFF)
    case ROR => TableRow(0x6A, 0x6A, 0xFF, 0x66, 0x76, 0xFF, 0x6E, 0x7E, 0xFF, 0xFF, 0xFF, 0xFF)
    case RTI => TableRow(0xFF, 0x40, 0xFF, 0xFF, 0xFF, 0xFF, 0xFF, 0xFF, 0xFF, 0xFF, 0xFF, 0xFF)
    case RTS => TableRow(0xFF, 0x60, 0xFF, 0xFF, 0xFF, 0xFF, 0xFF, 0xFF, 0xFF, 0xFF, 0xFF, 0xFF)
    case SBC => TableRow(0xFF, 0xFF, 0xE9, 0xE5, 0xF5, 0xFF, 0xED, 0xFD, 0xF9, 0xFF, 0xE1, 0xF1)
    case SEC => TableRow(0xFF, 0x38, 0xFF, 0xFF, 0xFF, 0xFF, 0xFF, 0xFF, 0xFF, 0xFF, 0xFF, 0xFF)
    case SED => TableRow(0xFF, 0xF8, 0xFF, 0xFF, 0xFF, 0xFF, 0xFF, 0xFF, 0xFF, 0xFF, 0xFF, 0xFF)
    case SEI => TableRow(0xFF, 0x78, 0xFF, 0xFF, 0xFF, 0xFF, 0xFF, 0xFF, 0xFF, 0xFF, 0xFF, 0xFF)
    case STA => TableRow(0xFF, 0xFF, 0xFF, 0x85, 0x95, 0xFF, 0x8D, 0x9D, 0x99, 0xFF, 0x81, 0x91)
    case STX => TableRow(0xFF, 0xFF, 0xFF, 0x86, 0xFF, 0x96, 0x8E, 0xFF, 0xFF, 0xFF, 0xFF, 0xFF)
    case STY => TableRow(0xFF, 0xFF, 0xFF, 0x84, 0x94, 0xFF, 0x8C, 0xFF, 0xFF, 0xFF, 0xFF, 0xFF)
    case TAX => TableRow(0xFF, 0xAA, 0xFF, 0xFF, 0xFF, 0xFF, 0xFF, 0xFF, 0xFF, 0xFF, 0xFF, 0xFF)
    case TAY => TableRow(0xFF, 0xA8, 0xFF, 0xFF, 0xFF, 0xFF, 0xFF, 0xFF, 0xFF, 0xFF, 0xFF, 0xFF)
    case TSX => TableRow(0xFF, 0xBA, 0xFF, 0xFF, 0xFF, 0xFF, 0xFF, 0xFF, 0xFF, 0xFF, 0xFF, 0xFF)
    case TXA => TableRow(0xFF, 0x8A, 0xFF, 0xFF, 0xFF, 0xFF, 0xFF, 0xFF, 0xFF, 0xFF, 0xFF, 0xFF)
    case TXS => TableRow(0xFF, 0x9A, 0xFF, 0xFF, 0xFF, 0xFF, 0xFF, 0xFF, 0xFF, 0xFF, 0xFF, 0xFF)
    case TYA => TableRow(0xFF, 0x98, 0xFF, 0xFF, 0xFF, 0xFF, 0xFF, 0xFF, 0xFF, 0xFF, 0xFF, 0xFF)
  }

  /** The cell of the table for a mnemonic and a mode (`codes[instr.mode.ID]`). */
  function Cell(m: Mnemonic, mode: Mode): (c: int)
    ensures 0 <= c <= 0xFF
  {
    var row := Row(m);
    match mode
    case Acc => row.acc
    case Imp => row.imp
    case Imm => row.imm
    case Zp => row.zp
    case Zpx => row.zpx
    case Zpy => row.zpy
    case Abs => row.abs
    case Abx => row.abx
    case Aby => row.aby
    case Ind => row.ind
    case Inx => row.inx
    case Iny => row.iny
  }

  /** getOpcode: the table cell for the mnemonic, looked up upper-cased; 0 when the name is not
      a mnemonic or the cell is "FF". */
  function GetOpcode(name: string, mode: Mode): (r: int)
    ensures 0 <= r < 0xFF
    ensures ParseMnemonic(Upper(name)).None? ==> r == 0
    ensures ParseMnemonic(Upper(name)).Some? ==>
      var c := Cell(ParseMnemonic(Upper(name)).value, mode);
      r == if c == 0xFF then 0 else c
  {
    match ParseMnemonic(Upper(name))
    case None => 0
    case Some(m) =>
      var c := Cell(m, mode);
      if c == 0xFF then 0 else c
  }

  /** Every code the assembler emits is one the emulator decodes as the same mnemonic with the
      same number of operand bytes, and as the same mode except where the two disagree: a shift
      written without operand decodes as its accumulator form, and SBC's absolute and
      absolute,X codes are exchanged in the emulator. LSR's zero-page cell holds the accumulator
      code and is excluded (LsrZeroPageCell). */
  lemma TableAgreesWithDecoder(m: Mnemonic, mode: Mode)
    requires Cell(m, mode) != 0xFF && !(m.LSR? && mode.Zp?)
    ensures Decode(Cell(m, mode)).Some?
    ensures var ins := Decode(Cell(m, mode)).value;
      ins.mnemonic == m && OperandBytes(ins.mode) == OperandBytes(mode)
      && (ins.mode == mode || (IsShift(m) && mode.Imp? && ins.mode.Acc?)
          || (m.SBC? && (mode.Abs? || mode.Abx?)))
  {
    if m.ADC? || m.AND? || m.ASL? || m.BCC? {
      CellsDecodeADCToBCC(m, mode);
    } else if m.BCS? || m.BEQ? || m.BIT? || m.BMI? {
      CellsDecodeBCSToBMI(m, mode);
    } else if m.BNE? || m.BPL? || m.BRK? || m.BVC? {
      CellsDecodeBNEToBVC(m, mode);
    } else if m.BVS? || m.CLC? || m.CLD? || m.CLI? {
      CellsDecodeBVSToCLI(m, mode);
    } else if m.CLV? || m.CMP? || m.CPX? || m.CPY? {
      CellsDecodeCLVToCPY(m, mode);
    } else if m.DEC? || m.DEX? || m.DEY? || m.EOR? {
      CellsDecodeDECToEOR(m, mode);
    } else if m.INC? || m.INX? || m.INY? || m.JMP? {
      CellsDecodeINCToJMP(m, mode);
    } else if m.JSR? || m.LDA? || m.LDX? || m.LDY? {
      CellsDecodeJSRToLDY(m, mode);
    } else if m.LSR? || m.NOP? || m.ORA? || m.PHA? {
      CellsDecodeLSRToPHA(m, mode);
    } else if m.PHP? || m.PLA? || m.PLP? || m.ROL? {
      CellsDecodePHPToROL(m, mode);
    } else if m.ROR? || m.RTI? {
      CellsDecodeRORToRTI(m, mode);
    } else if m.RTS? || m.SBC? {
      CellsDecodeRTSToSBC(m, mode);
    } else if m.SEC? || m.SED? {
      CellsDecodeSECToSED(m, mode);
    } else if m.SEI? || m.STA? {
      CellsDecodeSEIToSTA(m, mode);
    } else if m.STX? || m.STY? {
      CellsDecodeSTXToSTY(m, mode);
    } else if m.TAX? || m.TAY? {
      CellsDecodeTAXToTAY(m, mode);
    } else if m.TSX? || m.TXA? {
      CellsDecodeTSXToTXA(m, mode);
    } else {
      CellsDecodeTXSToTYA(m, mode);
    }
  }

  /** The emulator decodes the cell of m in mode as TableAgreesWithDecoder states. */
  predicate CellDecodes(m: Mnemonic, mode: Mode)
  {
    Decode(Cell(m, mode)).Some?
    && var ins := Decode(Cell(m, mode)).value;
      ins.mnemonic == m && OperandBytes(ins.mode) == OperandBytes(mode)
      && (ins.mode == mode || (IsShift(m) && mode.Imp? && ins.mode.Acc?)
          || (m.SBC? && (mode.Abs? || mode.Abx?)))
  }

  lemma CellsDecodeADCToBCC(m: Mnemonic, mode: Mode)
    requires m.ADC? || m.AND? || m.ASL? || m.BCC?
    requires Cell(m, mode) != 0xFF && !(m.LSR? && mode.Zp?)
    ensures CellDecodes(m, mode)
  {
  }

  lemma CellsDecodeBCSToBMI(m: Mnemonic, mode: Mode)
    requires m.BCS? || m.BEQ? || m.BIT? || m.BMI?
    requires Cell(m, mode) != 0xFF && !(m.LSR? && mode.Zp?)
    ensures CellDecodes(m, mode)
  {
  }

  lemma CellsDecodeBNEToBVC(m: Mnemonic, mode: Mode)
    requires m.BNE? || m.BPL? || m.BRK? || m.BVC?
    requires Cell(m, mode) != 0xFF && !(m.LSR? && mode.Zp?)
    ensures CellDecodes(m, mode)
  {
  }

  lemma CellsDecodeBVSToCLI(m: Mnemonic, mode: Mode)
    requires m.BVS? || m.CLC? || m.CLD? || m.CLI?
    requires Cell(m, mode) != 0xFF && !(m.LSR? && mode.Zp?)
    ensures CellDecodes(m, mode)
  {
  }

  lemma CellsDecodeCLVToCPY(m: Mnemonic, mode: Mode)
    requires m.CLV? || m.CMP? || m.CPX? || m.CPY?
    requires Cell(m, mode) != 0xFF && !(m.LSR? && mode.Zp?)
    ensures CellDecodes(m, mode)
  {
  }

  lemma CellsDecodeDECToEOR(m: Mnemonic, mode: Mode)
    requires m.DEC? || m.DEX? || m.DEY? || m.EOR?
    requires Cell(m, mode) != 0xFF && !(m.LSR? && mode.Zp?)
    ensures CellDecodes(m, mode)
  {
  }

  lemma CellsDecodeINCToJMP(m: Mnemonic, mode: Mode)
    requires m.INC? || m.INX? || m.INY? || m.JMP?
    requires Cell(m, mode) != 0xFF && !(m.LSR? && mode.Zp?)
    ensures CellDecodes(m, mode)
  {
  }

  lemma CellsDecodeJSRToLDY(m: Mnemonic, mode: Mode)
    requires m.JSR? || m.LDA? || m.LDX? || m.LDY?
    requires Cell(m, mode) != 0xFF && !(m.LSR? && mode.Zp?)
    ensures CellDecodes(m, mode)
  {
  }

  lemma CellsDecodeLSRToPHA(m: Mnemonic, mode: Mode)
    requires m.LSR? || m.NOP? || m.ORA? || m.PHA?
    requires Cell(m, mode) != 0xFF && !(m.LSR? && mode.Zp?)
    ensures CellDecodes(m, mode)
  {
  }

  lemma CellsDecodePHPToROL(m: Mnemonic, mode: Mode)
    requires m.PHP? || m.PLA? || m.PLP? || m.ROL?
    requires Cell(m, mode) != 0xFF && !(m.LSR? && mode.Zp?)
    ensures CellDecodes(m, mode)
  {
  }

  lemma CellsDecodeRORToRTI(m: Mnemonic, mode: Mode)
    requires m.ROR? || m.RTI?
    requires Cell(m, mode) != 0xFF && !(m.LSR? && mode.Zp?)
    ensures CellDecodes(m, mode)
  {
  }

  lemma CellsDecodeRTSToSBC(m: Mnemonic, mode: Mode)
    requires m.RTS? || m.SBC?
    requires Cell(m, mode) != 0xFF && !(m.LSR? && mode.Zp?)
    ensures CellDecodes(m, mode)
  {
  }

  lemma CellsDecodeSECToSED(m: Mnemonic, mode: Mode)
    requires m.SEC? || m.SED?
    requires Cell(m, mode) != 0xFF && !(m.LSR? && mode.Zp?)
    ensures CellDecodes(m, mode)
  {
  }

  lemma CellsDecodeSEIToSTA(m: Mnemonic, mode: Mode)
    requires m.SEI? || m.STA?
    requires Cell(m, mode) != 0xFF && !(m.LSR? && mode.Zp?)
    ensures CellDecodes(m, mode)
  {
  }

  lemma CellsDecodeSTXToSTY(m: Mnemonic, mode: Mode)
    requires m.STX? || m.STY?
    requires Cell(m, mode) != 0xFF && !(m.LSR? && mode.Zp?)
    ensures CellDecodes(m, mode)
  {
  }

  lemma CellsDecodeTAXToTAY(m: Mnemonic, mode: Mode)
    requires m.TAX? || m.TAY?
    requires Cell(m, mode) != 0xFF && !(m.LSR? && mode.Zp?)
    ensures CellDecodes(m, mode)
  {
  }

  lemma CellsDecodeTSXToTXA(m: Mnemonic, mode: Mode)
    requires m.TSX? || m.TXA?
    requires Cell(m, mode) != 0xFF && !(m.LSR? && mode.Zp?)
    ensures CellDecodes(m, mode)
  {
  }

  lemma CellsDecodeTXSToTYA(m: Mnemonic, mode: Mode)
    requires m.TXS? || m.TYA?
    requires Cell(m, mode) != 0xFF && !(m.LSR? && mode.Zp?)
    ensures CellDecodes(m, mode)
  {
  }

  /** LSR $zp assembles to 0x4A, which the emulator runs as LSR A, with no operand byte: the
      zero-page address that follows is then run as an opcode. */
  lemma LsrZeroPageCell()
    ensures Cell(LSR, Zp) == 0x4A && Decode(0x4A) == Some(Instr(LSR, Acc, 2))
  {
  }

  /** SBC $abs and SBC $abs,X assemble to 0xED and 0xFD, which the emulator runs as each
      other. */
  lemma SbcCodesExchanged()
    ensures Cell(SBC, Abs) == 0xED && Decode(0xED) == Some(Instr(SBC, Abx, 4))
    ensures Cell(SBC, Abx) == 0xFD && Decode(0xFD) == Some(Instr(SBC, Abs, 4))
  {
  }

  // ================================================================ the operand patterns

  /** The thirteen patterns of `modesRegex`: IMMD is the decimal immediate "#ddd", IMM the hex
      immediate "#$hh"; both select the immediate column. */
  datatype Pattern =
      PAcc | PImp | PImmDec | PImm | PZp | PZpx | PZpy | PAbs | PAbx | PAby | PInd | PInx | PIny

  /** n hex digits at position i of s. */
  predicate HexAt(s: string, i: nat, n: nat)
  {
    i + n <= |s| && forall j :: i <= j < i + n ==> IsHexDigit(s[j])
  }

  /** The n hex digits at i, taken out of s, are hex digits from 0. */
  lemma HexSlice(s: string, i: nat, n: nat)
    requires HexAt(s, i, n)
    ensures HexAt(s[i..i + n], 0, n)
  {
    var d := s[i..i + n];
    forall j | 0 <= j < n ensures IsHexDigit(d[j]) {
      assert d[j] == s[i + j];
    }
  }

  /** `args.matches(regex)`: the whole operand text has the pattern's shape. */
  predicate Matches(p: Pattern, a: string)
  {
    match p
    case PAcc => a == "a"
    case PImp => a == ""
    case PImmDec => 2 <= |a| <= 4 && a[0] == '#' && HexAt(a, 1, |a| - 1)
    case PImm => |a| == 4 && a[0] == '#' && a[1] == '$' && HexAt(a, 2, 2)
    case PZp => |a| == 3 && a[0] == '$' && HexAt(a, 1, 2)
    case PZpx => |a| == 5 && a[0] == '$' && HexAt(a, 1, 2) && a[3] == ',' && a[4] == 'x'
    case PZpy => |a| == 5 && a[0] == '$' && HexAt(a, 1, 2) && a[3] == ',' && a[4] == 'y'
    case PAbs => |a| == 5 && a[0] == '$' && HexAt(a, 1, 4)
    case PAbx => |a| == 7 && a[0] == '$' && HexAt(a, 1, 4) && a[5] == ',' && a[6] == 'x'
    case PAby => |a| == 7 && a[0] == '$' && HexAt(a, 1, 4) && a[5] == ',' && a[6] == 'y'
    case PInd => |a| == 7 && a[0] == '(' && a[1] == '$' && HexAt(a, 2, 4) && a[6] == ')'
    case PInx =>
      |a| == 7 && a[0] == '(' && a[1] == '$' && HexAt(a, 2, 2) && a[4] == ',' && a[5] == 'x'
      && a[6] == ')'
    case PIny =>
      |a| == 7 && a[0] == '(' && a[1] == '$' && HexAt(a, 2, 2) && a[4] == ')' && a[5] == ','
      && a[6] == 'y'
  }

  /** The column a pattern selects (`ModeData.ID`); its byte count is the mode's. */
  function PatternMode(p: Pattern): Mode
  {
    match p
    case PAcc => Acc
    case PImp => Imp
    case PImmDec | PImm => Imm
    case PZp => Zp
    case PZpx => Zpx
    case PZpy => Zpy
    case PAbs => Abs
    case PAbx => Abx
    case PAby => Aby
    case PInd => Ind
    case PInx => Inx
    case PIny => Iny
  }

  /** The search over `modesRegex`: the pattern the operand matches, if any. The map's
      iteration order is unspecified, but at most one pattern can match (PatternsExclusive), so
      any order finds the same one. */
  function Classify(a: string): (r: Option<Pattern>)
    ensures r.Some? ==> Matches(r.value, a)
  {
    if Matches(PAcc, a) then Some(PAcc)
    else if Matches(PImp, a) then Some(PImp)
    else if Matches(PImmDec, a) then Some(PImmDec)
    else if Matches(PImm, a) then Some(PImm)
    else if Matches(PZp, a) then Some(PZp)
    else if Matches(PZpx, a) then Some(PZpx)
    else if Matches(PZpy, a) then Some(PZpy)
    else if Matches(PAbs, a) then Some(PAbs)
    else if Matches(PAbx, a) then Some(PAbx)
    else if Matches(PAby, a) then Some(PAby)
    else if Matches(PInd, a) then Some(PInd)
    else if Matches(PInx, a) then Some(PInx)
    else if Matches(PIny, a) then Some(PIny)
    else None
  }

  /** No operand text matches two patterns. */
  lemma PatternsExclusive(p: Pattern, q: Pattern, a: string)
    requires Matches(p, a) && Matches(q, a)
    ensures p == q
  {
    if |a| == 5 || |a| == 7 {
      assert a[3] == ',' ==> !IsHexDigit(a[3]);
      assert a[4] == ',' || a[4] == ')' ==> !IsHexDigit(a[4]);
    }
    if |a| >= 2 {
      assert a[1] == '$' ==> !IsHexDigit(a[1]);
    }
  }

  /** ClassifyFindsTheMatch for every pattern at once. */
  lemma ClassifyAll(a: string)
    ensures forall p :: Classify(a) == Some(p) <==> Matches(p, a)
  {
    forall p ensures Classify(a) == Some(p) <==> Matches(p, a) {
      ClassifyFindsTheMatch(p, a);
    }
  }

  /** The search finds exactly the pattern the operand matches, in whatever order it tries
      them. */
  lemma ClassifyFindsTheMatch(p: Pattern, a: string)
    ensures Classify(a) == Some(p) <==> Matches(p, a)
  {
    if Matches(p, a) {
      assert Classify(a).Some? by {
        match p
        case PAcc =>
        case PImp =>
        case PImmDec =>
        case PImm =>
        case PZp =>
        case PZpx =>
        case PZpy =>
        case PAbs =>
        case PAbx =>
        case PAby =>
        case PInd =>
        case PInx =>
        case PIny =>
      }
      PatternsExclusive(p, Classify(a).value, a);
    }
  }

  // ================================================================ operand bytes

  /** A string of decimal digits only. */
  predicate IsDecimal(s: string)
  {
    forall i :: 0 <= i < |s| ==> '0' <= s[i] <= '9'
  }

  /** The hex operand text cut into pairs of digits (`split("(?<=\\G..)")`), parsed, last pair
      first; None where `Integer.parseInt` throws. */
  function PairsReversed(data: string): Option<seq<int>>
    requires |data| % 2 == 0
    decreases |data|
  {
    if data == [] then Some([])
    else
      match ParseInt(data[..2], 16)
      case None => None
      case Some(v) =>
        match PairsReversed(data[2..])
        case None => None
        case Some(rest) => Some(rest + [v])
  }

  /** The operand bytes getBytes emits after the opcode for n operand bytes: the 2n characters
      after the first '$', as pairs in reverse order; else the number after the first '#' in
      decimal, capped at 255; else nothing. None where Java throws. */
  function OperandData(args: string, n: nat): Option<seq<int>>
  {
    if n == 0 then Some([])
    else if IndexOf(args, '$') + 1 > 0 then
      var start := IndexOf(args, '$') + 1;
      if start + 2 * n > |args| then None
      else PairsReversed(args[start..start + 2 * n])
    else if IndexOf(args, '#') + 1 > 0 then
      match ParseInt(args[IndexOf(args, '#') + 1..], 10)
      case None => None
      case Some(v) => Some([if v > 255 then 255 else v])
    else Some([])
  }

  /** What getBytes recorded about a line: the first three characters, the lower-cased rest, the
      operand pattern, and the bytes (absent when no pattern matched). */
  datatype InstrData = InstrData(name: string, args: string, mode: Option<Pattern>,
                                 bytes: Option<seq<int>>)

  /** getBytes returns null for a line shorter than three characters once white space is
      removed, and throws NumberFormatException for a decimal immediate with a hex letter. */
  datatype Encoding = Null | Thrown | Data(data: InstrData)

  /** getBytes: white space removed, the line is null when shorter than three characters;
      otherwise the first three characters name the instruction and the lower-cased rest is
      its operand. Bytes are produced exactly when the operand has one of the patterns: the
      opcode for the name and the pattern's mode (0 for an unknown pair), then one byte per
      operand byte of the mode. Only a decimal immediate with a hex letter throws. */
  function GetBytes(src: string): (r: Encoding)
    ensures r.Null? <==> |RemoveSpaces(src)| < 3
    ensures r.Thrown? <==> (|RemoveSpaces(src)| >= 3
                            && Matches(PImmDec, Lower(RemoveSpaces(src)[3..]))
                            && !IsDecimal(Lower(RemoveSpaces(src)[3..])[1..]))
    ensures r.Data? ==> (r.data.name == RemoveSpaces(src)[..3]
                         && r.data.args == Lower(RemoveSpaces(src)[3..])
                         && (r.data.mode.Some? <==> r.data.bytes.Some?))
    ensures r.Data? && r.data.mode.None? ==> forall p :: !Matches(p, r.data.args)
    ensures r.Data? && r.data.mode.Some? ==>
      var mode := PatternMode(r.data.mode.value);
      var bytes := r.data.bytes.value;
      Matches(r.data.mode.value, r.data.args)
      && |bytes| == 1 + OperandBytes(mode)
      && bytes[0] == GetOpcode(r.data.name, mode)
      && forall i :: 0 <= i < |bytes| ==> 0 <= bytes[i] <= 0xFF
  {
    var code := RemoveSpaces(src);
    if |code| < 3 then Null
    else
      var args := Lower(code[3..]);
      ClassifyAll(args);
      match Classify(args)
      case None => Data(InstrData(code[..3], args, None, None))
      case Some(p) =>
        OperandShape(args, p);
        match OperandData(args, OperandBytes(PatternMode(p)))
        case None => Thrown
        case Some(ops) =>
          Data(InstrData(code[..3], args, Some(p),
                         Some([GetOpcode(code[..3], PatternMode(p))] + ops)))
  }

  // ================================================================ properties of getBytes

  /** The position of the first hex digit of a pattern's operand. */
  function HexStart(p: Pattern): nat
  {
    if p.PImm? || p.PInd? || p.PInx? || p.PIny? then 2 else 1
  }

  /** Two hex digits parse, in radix 16, to a byte. */
  lemma HexPairValue(s: string)
    requires |s| == 2 && IsHexDigit(s[0]) && IsHexDigit(s[1])
    ensures ParseInt(s, 16) == Some(16 * DigitValue(s[0]) + DigitValue(s[1]))
    ensures 0 <= 16 * DigitValue(s[0]) + DigitValue(s[1]) <= 0xFF
  {
    assert 0 <= DigitValue(s[0]) < 16 && 0 <= DigitValue(s[1]) < 16;
    assert s[..1] == [s[0]];
    assert DigitsValue(s[..1], 16) == Some(DigitValue(s[0]));
    assert DigitsValue(s, 16) == Some(DigitValue(s[0]) * 16 + DigitValue(s[1]));
  }

  /** Four hex digits parse to 0x100 times the value of the first pair plus that of the
      second. */
  lemma HexQuadValue(s: string)
    requires |s| == 4 && HexAt(s, 0, 4)
    ensures ParseInt(s, 16).Some? && ParseInt(s[..2], 16).Some? && ParseInt(s[2..], 16).Some?
    ensures ParseInt(s, 16).value == 0x100 * ParseInt(s[..2], 16).value + ParseInt(s[2..], 16).value
  {
    var d0, d1, d2, d3 := DigitValue(s[0]), DigitValue(s[1]), DigitValue(s[2]), DigitValue(s[3]);
    assert 0 <= d0 < 16 && 0 <= d1 < 16 && 0 <= d2 < 16 && 0 <= d3 < 16;
    HexPairValue(s[..2]);
    HexPairValue(s[2..]);
    assert s[..3][..2] == s[..2] && s[..2][..1] == s[..1] && s[..1] == [s[0]];
    assert DigitsValue(s[..1], 16) == Some(d0);
    assert DigitsValue(s[..2], 16) == Some(d0 * 16 + d1);
    assert DigitsValue(s[..3], 16) == Some((d0 * 16 + d1) * 16 + d2);
    assert DigitsValue(s, 16) == Some(((d0 * 16 + d1) * 16 + d2) * 16 + d3);
  }

  function Pow10(n: nat): nat
  {
    if n == 0 then 1 else 10 * Pow10(n - 1)
  }

  /** A string of decimal digits parses in radix 10, to less than 10 to the power of its
      length; one with a hex letter does not parse. */
  lemma {:induction false} DecimalDigits(s: string)
    requires s != [] && forall i :: 0 <= i < |s| ==> IsHexDigit(s[i])
    ensures DigitsValue(s, 10).Some? <==> IsDecimal(s)
    ensures DigitsValue(s, 10).Some? ==> DigitsValue(s, 10).value < Pow10(|s|)
  {
    var last := s[|s| - 1];
    assert DigitValue(last) < 10 <==> '0' <= last <= '9';
    if |s| > 1 {
      var init := s[..|s| - 1];
      DecimalDigits(init);
      assert IsDecimal(s) <==> IsDecimal(init) && '0' <= last <= '9' by {
        if IsDecimal(init) && '0' <= last <= '9' {
          forall i | 0 <= i < |s| ensures '0' <= s[i] <= '9' {
            if i < |s| - 1 { assert s[i] == init[i]; }
          }
        }
      }
    }
  }

  /** Hex digit pairs all parse, one byte per pair. */
  lemma {:induction false} PairsReversedBytes(data: string)
    requires |data| % 2 == 0 && HexAt(data, 0, |data|)
    ensures PairsReversed(data).Some?
    ensures |PairsReversed(data).value| == |data| / 2
    ensures forall i :: 0 <= i < |PairsReversed(data).value| ==>
              0 <= PairsReversed(data).value[i] <= 0xFF
  {
    if data != [] {
      HexPairValue(data[..2]);
      var rest := data[2..];
      assert HexAt(rest, 0, |rest|) by {
        forall j | 0 <= j < |rest| ensures IsHexDigit(rest[j]) { assert rest[j] == data[j + 2]; }
      }
      PairsReversedBytes(rest);
    }
  }

  /** The operand bytes of a line that matched a pattern: as many as the mode takes, each a
      byte, except that a decimal immediate containing a hex letter throws. */
  lemma OperandShape(args: string, p: Pattern)
    requires Matches(p, args)
    ensures var r := OperandData(args, OperandBytes(PatternMode(p)));
      (r.None? <==> p.PImmDec? && !IsDecimal(args[1..]))
      && (r.Some? ==> |r.value| == OperandBytes(PatternMode(p))
                      && forall i :: 0 <= i < |r.value| ==> 0 <= r.value[i] <= 0xFF)
  {
    var n := OperandBytes(PatternMode(p));
    if n > 0 {
      if p.PImmDec? {
        DecimalShape(args);
      } else {
        var k := HexStart(p);
        HexDigitsAt(args, p);
        HexSlice(args, k, 2 * n);
        PairsReversedBytes(args[k..k + 2 * n]);
      }
    }
  }

  /** A decimal immediate's operand is one byte, unless it holds a hex letter and throws. */
  lemma DecimalShape(args: string)
    requires Matches(PImmDec, args)
    ensures var r := OperandData(args, 1);
      (r.None? <==> !IsDecimal(args[1..]))
      && (r.Some? ==> |r.value| == 1 && 0 <= r.value[0] <= 0xFF)
  {
    assert '$' !in args by {
      forall j | 0 <= j < |args| ensures args[j] != '$' { if j > 0 { assert IsHexDigit(args[j]); } }
    }
    assert IndexOf(args, '#') == 0;
    DecimalDigits(args[1..]);
    assert Pow10(|args[1..]|) <= 1000;
  }

  /** Where the hex digits of a pattern with operand bytes sit: right after the only '$'
      before them. */
  lemma HexDigitsAt(args: string, p: Pattern)
    requires Matches(p, args) && !p.PImmDec? && OperandBytes(PatternMode(p)) > 0
    ensures var k := HexStart(p);
      HexAt(args, k, 2 * OperandBytes(PatternMode(p))) && IndexOf(args, '$') == k - 1
  {
    var k := HexStart(p);
    assert args[k - 1] == '$';
    assert k == 2 ==> args[0] != '$';
  }

  lemma OnePair(d: string)
    requires |d| == 2 && IsHexDigit(d[0]) && IsHexDigit(d[1])
    ensures ParseInt(d, 16).Some? && PairsReversed(d) == Some([ParseInt(d, 16).value])
  {
    HexPairValue(d);
    assert d[..2] == d && d[2..] == [];
    assert PairsReversed(d[2..]) == Some([]);
    var v := ParseInt(d, 16).value;
    assert [] + [v] == [v];
  }

  /** The operand bytes of a hex operand, least significant first. */
  lemma OperandLittleEndian(args: string, p: Pattern)
    requires Matches(p, args) && !p.PImmDec?
    ensures var k := HexStart(p);
      var n := OperandBytes(PatternMode(p));
      var r := OperandData(args, n);
      r.Some? && |r.value| == n
      && (n == 1 ==> ParseInt(args[k..k + 2], 16) == Some(r.value[0]))
      && (n == 2 ==> ParseInt(args[k..k + 4], 16) == Some(r.value[0] + 0x100 * r.value[1]))
  {
    var n := OperandBytes(PatternMode(p));
    OperandShape(args, p);
    if n > 0 {
      var k := HexStart(p);
      HexDigitsAt(args, p);
      var data := args[k..k + 2 * n];
      HexSlice(args, k, 2 * n);
      assert OperandData(args, n) == PairsReversed(data);
      HexPairValue(data[..2]);
      if n == 1 {
        OnePair(data);
      } else {
        HexQuadValue(data);
        HexPairValue(data[2..]);
        OnePair(data[2..]);
      }
    }
  }

  /** The operand bytes that follow the opcode in bytes are the n-byte value of the 2n hex
      digits at k, least significant byte first. */
  predicate LittleEndianAt(args: string, k: nat, n: nat, bytes: seq<int>)
    requires |bytes| == 1 + n && (n > 0 ==> HexAt(args, k, 2 * n))
  {
    (n == 1 ==> ParseInt(args[k..k + 2], 16) == Some(bytes[1]))
    && (n == 2 ==> ParseInt(args[k..k + 4], 16) == Some(bytes[1] + 0x100 * bytes[2]))
  }

  /** A hex operand is written most significant digit first and emitted least significant byte
      first: the one operand byte is the two digits' value; of two operand bytes, the first is
      the value of the last two digits and the second that of the first two. */
  lemma GetBytesLittleEndian(src: string)
    requires GetBytes(src).Data? && GetBytes(src).data.mode.Some?
    requires !GetBytes(src).data.mode.value.PImmDec?
    ensures var d := GetBytes(src).data;
      var p := d.mode.value;
      var k := HexStart(p);
      var n := OperandBytes(PatternMode(p));
      var bytes := d.bytes.value;
      |bytes| == 1 + n && (n > 0 ==> HexAt(d.args, k, 2 * n)) && LittleEndianAt(d.args, k, n, bytes)
  {
    var d := GetBytes(src).data;
    var n := OperandBytes(PatternMode(d.mode.value));
    OperandLittleEndian(d.args, d.mode.value);
    GetBytesOperands(src);
    var ops := OperandData(d.args, n).value;
    var bytes := d.bytes.value;
    var k := HexStart(d.mode.value);
    if n > 0 {
      HexDigitsAt(d.args, d.mode.value);
    }
    if n == 1 {
      assert bytes[1] == ops[0];
      assert ParseInt(d.args[k..k + 2], 16) == Some(bytes[1]);
    } else if n == 2 {
      assert bytes[1] == ops[0] && bytes[2] == ops[1];
      assert ParseInt(d.args[k..k + 4], 16) == Some(bytes[1] + 0x100 * bytes[2]);
    }
    assert LittleEndianAt(d.args, k, n, bytes);
  }

  /** After the opcode come the operand bytes read from the operand text. */
  lemma GetBytesOperands(src: string)
    requires GetBytes(src).Data? && GetBytes(src).data.mode.Some?
    ensures var d := GetBytes(src).data;
      OperandData(d.args, OperandBytes(PatternMode(d.mode.value))).Some?
      && d.bytes.value[1..] == OperandData(d.args, OperandBytes(PatternMode(d.mode.value))).value
  {
  }

  /** A decimal immediate is its value in radix 10, capped at 255. */
  lemma GetBytesDecimal(src: string)
    requires GetBytes(src).Data? && GetBytes(src).data.mode == Some(PImmDec)
    ensures var d := GetBytes(src).data;
      ParseInt(d.args[1..], 10).Some?
      && d.bytes.value[1] == if ParseInt(d.args[1..], 10).value > 255 then 255
                             else ParseInt(d.args[1..], 10).value
  {
    var args := GetBytes(src).data.args;
    assert '$' !in args by {
      forall j | 0 <= j < |args| ensures args[j] != '$' { if j > 0 { assert IsHexDigit(args[j]); } }
    }
    assert IndexOf(args, '#') == 0;
  }

  // ================================================================ hex operands of the same width

  /** Two operand texts that agree except where both have hex digits, with a '$' at some
      position, match the same patterns, and neither is a decimal immediate. */
  lemma MatchesHexVariant(p: Pattern, a1: string, a2: string, at: nat)
    requires HexVariants(a1, a2, at)
    ensures Matches(p, a1) <==> Matches(p, a2)
    ensures !Matches(PImmDec, a1)
  {
    assert !IsHexDigit('$');
  }

  /** a1 and a2 agree except where both have hex digits, and have a '$' at position at. */
  predicate HexVariants(a1: string, a2: string, at: nat)
  {
    |a1| == |a2| && at < |a1| && a1[at] == '$' && a2[at] == '$'
    && forall k :: 0 <= k < |a1| ==> a1[k] == a2[k] || (IsHexDigit(a1[k]) && IsHexDigit(a2[k]))
  }

  /** So they get the same pattern. */
  lemma ClassifyHexVariant(a1: string, a2: string, at: nat)
    requires HexVariants(a1, a2, at)
    ensures Classify(a1) == Classify(a2) && Classify(a1) != Some(PImmDec)
  {
    forall p ensures Matches(p, a1) <==> Matches(p, a2) {
      MatchesHexVariant(p, a1, a2, at);
    }
    MatchesHexVariant(PImmDec, a1, a2, at);
  }

  /** Lines with '$' and as many hex digits between the same pre and post have the same
      mnemonic text, and operand texts that are hex variants of each other. */
  lemma HexVariantCode(pre: string, h1: string, h2: string, post: string)
    requires |RemoveSpaces(pre)| >= 3 && |h1| == |h2| && AllHex(h1) && AllHex(h2)
    ensures var c1 := HexCode(pre, h1, post);
      var c2 := HexCode(pre, h2, post);
      c1[..3] == c2[..3] && HexVariants(Lower(c1[3..]), Lower(c2[3..]), |RemoveSpaces(pre)| - 3)
  {
    var c1 := HexCode(pre, h1, post);
    var c2 := HexCode(pre, h2, post);
    var a1, a2 := Lower(c1[3..]), Lower(c2[3..]);
    var at := |RemoveSpaces(pre)| - 3;
    assert c1[..3] == c2[..3];
    forall k | 0 <= k < |a1|
      ensures a1[k] == a2[k] || (IsHexDigit(a1[k]) && IsHexDigit(a2[k]))
    {
      if at < k <= at + |h1| {
        assert c1[k + 3] == h1[k - at - 1] && c2[k + 3] == h2[k - at - 1];
      } else {
        assert c1[k + 3] == c2[k + 3];
      }
    }
  }

  /** A line in which a '$' and hex digits are put between pre and post assembles to the same
      mnemonic text, the same pattern and the same number of bytes whatever the digits are, as
      long as there are as many of them and a mnemonic precedes them. */
  lemma GetBytesHexVariant(pre: string, h1: string, h2: string, post: string)
    requires |RemoveSpaces(pre)| >= 3
    requires |h1| == |h2| && AllHex(h1) && AllHex(h2)
    ensures var r1 := GetBytes(pre + "$" + h1 + post);
      var r2 := GetBytes(pre + "$" + h2 + post);
      r1.Data? && r2.Data? && r1.data.name == r2.data.name && r1.data.mode == r2.data.mode
      && r1.data.mode.Some? == r1.data.bytes.Some?
      && (r1.data.bytes.Some? ==> |r1.data.bytes.value| == |r2.data.bytes.value|)
  {
    var c1 := HexCode(pre, h1, post);
    var c2 := HexCode(pre, h2, post);
    HexVariantCode(pre, h1, h2, post);
    ClassifyHexVariant(Lower(c1[3..]), Lower(c2[3..]), |RemoveSpaces(pre)| - 3);
  }

  /** The operand of the instruction bytes b is read from the hex digits h: one byte is the
      value of the first two digits, two bytes are the value of the first four, least
      significant first. */
  predicate OperandDigits(b: seq<int>, h: string)
    requires |h| >= 2 && |b| > 0
  {
    (|b| == 2 ==> ParseInt(h[..2], 16) == Some(b[1]))
    && (|b| == 3 && |h| >= 4 ==> ParseInt(h[..4], 16) == Some(b[1] + 0x100 * b[2]))
  }

  /** The operand bytes of such a line, when no '$' comes before the one inserted, are read from
      the digits after it: one byte is the value of the first two, two bytes are the value of
      the first four, least significant first. */
  lemma HexOperand(pre: string, h: string, post: string)
    requires |RemoveSpaces(pre)| >= 3 && '$' !in pre && AllHex(h) && |h| >= 2
    requires GetBytes(pre + "$" + h + post).Data? && GetBytes(pre + "$" + h + post).data.mode.Some?
    ensures OperandDigits(GetBytes(pre + "$" + h + post).data.bytes.value, h)
  {
    var src := pre + "$" + h + post;
    HexDataArgs(pre, h, post, src);
    HexArgsSlices(pre, h, post, GetBytes(src).data.args);
    GetBytesDollarAt(src, |RemoveSpaces(pre)| - 3, h);
  }

  /** The operand text getBytes reads from such a line. */
  lemma HexDataArgs(pre: string, h: string, post: string, src: string)
    requires AllHex(h) && src == pre + "$" + h + post && GetBytes(src).Data?
    ensures GetBytes(src).data.args == Lower(HexCode(pre, h, post)[3..])
  {
  }

  /** The operand bytes of a line whose first '$' in the operand text is followed by the digits
      h are read from h. */
  lemma GetBytesDollarAt(src: string, at: nat, h: string)
    requires GetBytes(src).Data? && GetBytes(src).data.mode.Some?
    requires var args := GetBytes(src).data.args;
      !Matches(PImmDec, args) && |h| >= 2 && at + 1 + |h| <= |args| && IndexOf(args, '$') == at
      && args[at + 1..at + 3] == h[..2] && (|h| >= 4 ==> args[at + 1..at + 5] == h[..4])
    ensures OperandDigits(GetBytes(src).data.bytes.value, h)
  {
    var d := GetBytes(src).data;
    GetBytesLittleEndian(src);
    if |d.bytes.value| > 1 {
      HexDigitsAt(d.args, d.mode.value);
    }
  }

  /** In the lower-cased operand text of such a line, the first '$' is the inserted one and
      the digits follow it. */
  lemma HexArgs(pre: string, h: string, post: string)
    requires |RemoveSpaces(pre)| >= 3 && '$' !in pre && AllHex(h)
    ensures var args := Lower(HexCode(pre, h, post)[3..]);
      var at := |RemoveSpaces(pre)| - 3;
      at + 1 + |h| <= |args| && IndexOf(args, '$') == at
      && forall t :: 0 <= t < |h| ==> args[at + 1 + t] == h[t]
  {
    var rp := RemoveSpaces(pre);
    var c := HexCode(pre, h, post);
    RemoveSpacesKeeps(pre, '$');
    var args := Lower(c[3..]);
    var at := |rp| - 3;
    forall t | 0 <= t < at ensures args[t] != '$' {
      assert c[3 + t] == rp[3 + t];
    }
    FirstAt(args, '$', at);
    forall t | 0 <= t < |h| ensures args[at + 1 + t] == h[t] {
      assert c[3 + at + 1 + t] == h[t];
    }
  }

  /** So the first two and the first four digits follow the '$', and the operand text is not
      a decimal immediate. */
  lemma HexArgsSlices(pre: string, h: string, post: string, args: string)
    requires |RemoveSpaces(pre)| >= 3 && '$' !in pre && AllHex(h) && |h| >= 2
    requires args == Lower(HexCode(pre, h, post)[3..])
    ensures var at := |RemoveSpaces(pre)| - 3;
      !Matches(PImmDec, args) && at + 1 + |h| <= |args| && IndexOf(args, '$') == at
      && args[at + 1..at + 3] == h[..2] && (|h| >= 4 ==> args[at + 1..at + 5] == h[..4])
  {
    var at := |RemoveSpaces(pre)| - 3;
    HexArgs(pre, h, post);
    MatchesHexVariant(PImmDec, args, args, at);
    SliceOf(args, at, h, 2);
    if |h| >= 4 {
      SliceOf(args, at, h, 4);
    }
  }

  /** The n characters after position at are the first n of h. */
  lemma SliceOf(args: string, at: nat, h: string, n: nat)
    requires n <= |h| && at + 1 + |h| <= |args|
    requires forall t :: 0 <= t < |h| ==> args[at + 1 + t] == h[t]
    ensures args[at + 1..at + 1 + n] == h[..n]
  {
  }

  /** White space removed, such a line is the mnemonic text, the '$', the digits and the rest. */
  function HexCode(pre: string, h: string, post: string): (c: string)
    requires forall k :: 0 <= k < |h| ==> IsHexDigit(h[k])
    ensures c == RemoveSpaces(pre + "$" + h + post)
    ensures |c| == |RemoveSpaces(pre)| + 1 + |h| + |RemoveSpaces(post)|
    ensures c[..|RemoveSpaces(pre)|] == RemoveSpaces(pre) && c[|RemoveSpaces(pre)|] == '$'
    ensures forall k :: 0 <= k < |h| ==> c[|RemoveSpaces(pre)| + 1 + k] == h[k]
  {
    var t := "$" + h;
    assert forall k :: 0 <= k < |t| ==> !IsSpace(t[k]) by {
      forall k | 0 <= k < |t| ensures !IsSpace(t[k]) {
        if k == 0 { assert t[k] == '$'; } else { assert t[k] == h[k - 1] && IsHexDigit(h[k - 1]); }
      }
    }
    RemoveSpacesNone(t);
    assert pre + "$" + h + post == pre + (t + post);
    RemoveSpacesAppend(pre, t + post);
    RemoveSpacesAppend(t, post);
    RemoveSpaces(pre) + t + RemoveSpaces(post)
  }
}
