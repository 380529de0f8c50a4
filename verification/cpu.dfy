/** The MOS 6502 machine state of CPU6502.java: 64 KiB of RAM, the registers, the flag byte and
    the primitives the opcodes are built from (memory access with the framebuffer hook,
    operand fetch, addressing modes, the page-1 stack, flag updates).

    Every primitive appears twice: as a function on an immutable `State`, which is the
    specification, and as a method of the class `Cpu`, which updates the fields and the RAM
    array in place as the Java does and is proved to agree with the function. The display
    hook (`DrawVRAM(short)`) is modelled as an event appended to the ghost log `frames`. */
module Cpu6502 {
  import opened Bits
  import opened Wrappers
  import opened Text

  const MemSize := 0x10000
  const StackPage := 0x0100
  const VramStart := 0x0200
  const VramEnd := 0x05FF
  const ResetPC: Word := 0x0600
  const ResetSP: Byte := 0xFF

  // ================================================================ flags

  datatype Flag = Carry | Zero | InterruptDisable | DecimalMode | Break | Undefined | Overflow | Negative

  /** The bit each flag occupies in the status byte. */
  function Mask(f: Flag): bv8
  {
    match f
    case Carry => 0x01
    case Zero => 0x02
    case InterruptDisable => 0x04
    case DecimalMode => 0x08
    case Break => 0x10
    case Undefined => 0x20
    case Overflow => 0x40
    case Negative => 0x80
  }

  /** getFlag */
  predicate GetFlag(flags: bv8, f: Flag)
  {
    flags & Mask(f) != 0
  }

  /** setFlag: sets or clears the one bit of `f` and keeps the other seven. */
  function WithFlag(flags: bv8, f: Flag, enable: bool): (r: bv8)
    ensures GetFlag(r, f) == enable
    ensures forall g :: g != f ==> GetFlag(r, g) == GetFlag(flags, g)
  {
    if enable then flags | Mask(f) else flags & !Mask(f)
  }

  /** The eight flags are the whole status byte: two bytes that agree on every flag are equal. */
  lemma FlagsDetermineByte(p: bv8, q: bv8)
    requires forall f :: GetFlag(p, f) == GetFlag(q, f)
    ensures p == q
  {
    assert GetFlag(p, Carry) == GetFlag(q, Carry);
    assert GetFlag(p, Zero) == GetFlag(q, Zero);
    assert GetFlag(p, InterruptDisable) == GetFlag(q, InterruptDisable);
    assert GetFlag(p, DecimalMode) == GetFlag(q, DecimalMode);
    assert GetFlag(p, Break) == GetFlag(q, Break);
    assert GetFlag(p, Undefined) == GetFlag(q, Undefined);
    assert GetFlag(p, Overflow) == GetFlag(q, Overflow);
    assert GetFlag(p, Negative) == GetFlag(q, Negative);
  }

  /** resetFlags: clear everything, then set Undefined and Break. */
  function PowerOnFlags(): (r: bv8)
    ensures forall f :: GetFlag(r, f) <==> f == Break || f == Undefined
    ensures r == 0x30
  {
    WithFlag(WithFlag(0, Undefined, true), Break, true)
  }

  /** setFlagsResult(byte): Zero iff the byte is 0, Negative iff its bit 7 is set. */
  function ResultFlags(flags: bv8, result: Byte): (r: bv8)
    ensures GetFlag(r, Zero) == (result == 0)
    ensures GetFlag(r, Negative) == (result >= 0x80)
    ensures forall g :: g != Zero && g != Negative ==> GetFlag(r, g) == GetFlag(flags, g)
  {
    WithFlag(WithFlag(flags, Zero, result == 0), Negative, Signed(result) < 0)
  }

  /** The source's overflow test: the signed result lies above 128 or below -127. */
  predicate OverflowApprox(intResult: int)
  {
    intResult > 128 || intResult < -127
  }

  /** setFlagsResult(byte, int): as above, plus Overflow from the widened result. */
  function ResultFlagsOverflow(flags: bv8, result: Byte, intResult: int): (r: bv8)
    ensures GetFlag(r, Zero) == (result == 0)
    ensures GetFlag(r, Negative) == (result >= 0x80)
    ensures GetFlag(r, Overflow) == OverflowApprox(intResult)
    ensures forall g :: g !in {Zero, Negative, Overflow} ==> GetFlag(r, g) == GetFlag(flags, g)
  {
    WithFlag(ResultFlags(flags, result), Overflow, OverflowApprox(intResult))
  }

  /** setFlagsCMP(a, b): Carry iff a >= b unsigned; Zero and Negative from a - b. */
  function CmpFlags(flags: bv8, a: Byte, b: Byte): (r: bv8)
    ensures GetFlag(r, Carry) == (a >= b)
    ensures GetFlag(r, Zero) == (a == b)
    ensures GetFlag(r, Negative) == (ToByte(a - b) >= 0x80)
    ensures forall g :: g !in {Carry, Zero, Negative} ==> GetFlag(r, g) == GetFlag(flags, g)
  {
    ResultFlags(WithFlag(flags, Carry, a >= b), ToByte(a - b))
  }

  /** setFlagsADC(a, b): Carry is set when the unsigned sum exceeds 255 and is never cleared. */
  function AdcFlags(flags: bv8, a: Byte, b: Byte): (r: bv8)
    ensures GetFlag(r, Carry) == (GetFlag(flags, Carry) || a + b > 0xFF)
    ensures GetFlag(r, Zero) == ((a + b) % 0x100 == 0)
    ensures GetFlag(r, Negative) == ((a + b) % 0x100 >= 0x80)
    ensures GetFlag(r, Overflow) == OverflowApprox(Signed(a) + Signed(b))
    ensures forall g :: g !in {Carry, Zero, Negative, Overflow} ==> GetFlag(r, g) == GetFlag(flags, g)
  {
    var carryR := a + b;
    var withCarry := if carryR > 0xFF then WithFlag(flags, Carry, true) else flags;
    ResultFlagsOverflow(withCarry, ToByte(carryR), Signed(a) + Signed(b))
  }

  /** setFlagsSBC(a, b): Carry is cleared when the unsigned difference is negative and is
      never set. */
  function SbcFlags(flags: bv8, a: Byte, b: Byte): (r: bv8)
    ensures GetFlag(r, Carry) == (GetFlag(flags, Carry) && a >= b)
    ensures GetFlag(r, Zero) == (a == b)
    ensures GetFlag(r, Negative) == ((a - b) % 0x100 >= 0x80)
    ensures GetFlag(r, Overflow) == OverflowApprox(Signed(a) - Signed(b))
    ensures forall g :: g !in {Carry, Zero, Negative, Overflow} ==> GetFlag(r, g) == GetFlag(flags, g)
  {
    var carryR := a - b;
    var withCarry := if carryR < 0 then WithFlag(flags, Carry, false) else flags;
    ResultFlagsOverflow(withCarry, ToByte(carryR), Signed(a) - Signed(b))
  }

  // ================================================================ state

  /** One display notification: pixel (x, y) of the 32x32 screen takes palette entry `colour`. */
  datatype Pixel = Pixel(x: int, y: int, colour: int)

  datatype Reg = A | X | Y

  /** Everything CPU6502 keeps that the model covers. `frames` is the log of display
      notifications; the opcodes never touch `executionTime` or `waitCycles`. */
  datatype State = State(
    ram: seq<Byte>,
    pc: Word, sp: Byte, a: Byte, x: Byte, y: Byte,
    flags: bv8,
    halt: bool,
    executionTime: int,
    waitCycles: int,
    frames: seq<Pixel>)
  {
    predicate Valid() { |ram| == MemSize }
  }

  /** The state the constructor builds. */
  function Initial(): (s: State)
    ensures s.Valid()
  {
    State(seq(MemSize, _ => 0), ResetPC, ResetSP, 0, 0, 0, PowerOnFlags(), true, 0, 0, [])
  }

  function RegValue(s: State, r: Reg): Byte
  {
    match r
    case A => s.a
    case X => s.x
    case Y => s.y
  }

  /** setRegA / setRegX / setRegY: store the byte and set Zero and Negative from it. */
  function WithReg(s: State, r: Reg, v: Byte): (t: State)
    ensures RegValue(t, r) == v
    ensures t.flags == ResultFlags(s.flags, v)
  {
    var s' := s.(flags := ResultFlags(s.flags, v));
    match r
    case A => s'.(a := v)
    case X => s'.(x := v)
    case Y => s'.(y := v)
  }

  // ================================================================ memory

  function Read(s: State, addr: Word): Byte
    requires s.Valid()
  {
    s.ram[addr]
  }

  predicate InFramebuffer(addr: Word)
  {
    VramStart <= addr <= VramEnd
  }

  /** DrawVRAM(addr): the pixel for a framebuffer cell and the byte now stored in it. */
  function PixelFor(addr: Word, stored: Byte): (p: Pixel)
    requires InFramebuffer(addr)
    ensures 0 <= p.x < 32 && 0 <= p.y < 32
    ensures VramStart + 32 * p.y + p.x == addr
    ensures 0 <= p.colour < 16 && p.colour == stored % 16
  {
    var offset := addr - VramStart;
    Pixel(offset % 32, offset / 32, stored % 16)  // the low nibble: `& 0x0F`
  }

  /** writeRAM: store the low byte of `value`, then notify the display for a framebuffer cell. */
  function Write(s: State, addr: Word, value: int): (t: State)
    requires s.Valid()
    ensures t.Valid()
  {
    var stored := ToByte(value);
    s.(ram := s.ram[addr := stored],
       frames := s.frames + if InFramebuffer(addr) then [PixelFor(addr, stored)] else [])
  }

  /** writeRAM_WithFlags */
  function WriteWithFlags(s: State, addr: Word, value: int): (t: State)
    requires s.Valid()
    ensures t.Valid()
  {
    var t := Write(s, addr, value);
    t.(flags := ResultFlags(t.flags, ToByte(value)))
  }

  // ================================================================ operand fetch

  /** nextBytePC: advance PC, then read. */
  function NextByte(s: State): (r: (State, Byte))
    requires s.Valid()
    ensures r.0.Valid()
  {
    var t := s.(pc := ToWord(s.pc + 1));
    (t, t.ram[t.pc])
  }

  /** bytesToShort(low, high) = (short) ((high << 8) | low). The arguments are Java ints: the
      unsigned bytes 0..255 everywhere except JMP indirect, which passes signed bytes; a negative
      low byte then fills the high byte with ones through sign extension. */
  function BytesToShort(low: int, high: int): (w: Word)
    requires -128 <= low < 256 && -128 <= high < 256
    ensures 0 <= low ==> w == ToByte(high) * 0x100 + low
    ensures low < 0 ==> w == 0xFF00 + ToByte(low)
  {
    if low < 0 then 0xFF00 + ToByte(low) else ToByte(high) * 0x100 + low
  }

  /** nextBytesPC: two operand bytes, little-endian. */
  function NextWord(s: State): (r: (State, Word))
    requires s.Valid()
    ensures r.0.Valid()
    ensures r.0 == s.(pc := ToWord(s.pc + 2))
    ensures r.1 == s.ram[ToWord(s.pc + 1)] + 0x100 * (s.ram[ToWord(s.pc + 2)] as int)
  {
    var (s1, low) := NextByte(s);
    var (s2, high) := NextByte(s1);
    (s2, BytesToShort(low, high))
  }

  // ================================================================ addressing modes

  /** zeroPage(reg) (zeroPage() is reg = 0): the operand byte plus reg, wrapped to page 0. */
  function ZeroPageAddr(s: State, reg: Byte): (r: (State, Word))
    requires s.Valid()
    ensures r.0.Valid() && r.0 == s.(pc := ToWord(s.pc + 1))
    ensures r.1 == (s.ram[ToWord(s.pc + 1)] + reg) % 0x100
  {
    var (t, operand) := NextByte(s);
    (t, ToByte(operand + reg))
  }

  /** absolute(reg) (absolute() is reg = 0): the operand word plus reg, wrapped to 16 bits. */
  function AbsoluteAddr(s: State, reg: Byte): (r: (State, Word))
    requires s.Valid()
    ensures r.0.Valid() && r.0 == s.(pc := ToWord(s.pc + 2))
    ensures r.1 == (s.ram[ToWord(s.pc + 1)] + 0x100 * (s.ram[ToWord(s.pc + 2)] as int) + reg) % 0x10000
  {
    var (t, base) := NextWord(s);
    (t, ToWord(base + reg))
  }

  /** indirectX: the pointer sits at (operand + X) mod 256; its high byte is read from the next
      cell without wrapping to page 0. */
  function IndirectXAddr(s: State): (r: (State, Word))
    requires s.Valid()
    ensures r.0.Valid() && r.0 == s.(pc := ToWord(s.pc + 1))
    ensures var zp := (s.ram[ToWord(s.pc + 1)] + s.x) % 0x100;
      r.1 == s.ram[zp] + 0x100 * (s.ram[zp + 1] as int)
  {
    var (t, operand) := NextByte(s);
    var zp := ToByte(operand + t.x);
    (t, BytesToShort(t.ram[zp], t.ram[zp + 1]))
  }

  /** indirectY: the pointer sits at the operand; Y is added as a signed byte. */
  function IndirectYAddr(s: State): (r: (State, Word))
    requires s.Valid()
    ensures r.0.Valid() && r.0 == s.(pc := ToWord(s.pc + 1))
    ensures var zp := s.ram[ToWord(s.pc + 1)];
      r.1 == (s.ram[zp] + 0x100 * (s.ram[zp + 1] as int) + Signed(s.y)) % 0x10000
  {
    var (t, zp) := NextByte(s);
    (t, ToWord(BytesToShort(t.ram[zp], t.ram[zp + 1]) + Signed(t.y)))
  }

  /** The byte at the resolved address, after the operand fetch (readZeroPage, readAbsolute,
      readIndirectX, `readRAM(indirectY())`). */
  function Fetch(r: (State, Word)): (v: (State, Byte))
    requires r.0.Valid()
  {
    (r.0, r.0.ram[r.1])
  }

  // ================================================================ stack

  /** stackPush: write at 0x0100 + SP, then decrement SP modulo 256. */
  function Push(s: State, value: int): (t: State)
    requires s.Valid()
    ensures t.Valid()
  {
    var t := Write(s, StackPage + s.sp, value);
    t.(sp := ToByte(s.sp - 1))
  }

  /** stackPop: increment SP modulo 256, then read at 0x0100 + SP. */
  function Pop(s: State): (r: (State, Byte))
    requires s.Valid()
    ensures r.0.Valid()
  {
    var t := s.(sp := ToByte(s.sp + 1));
    (t, t.ram[StackPage + t.sp])
  }

  /** pushPC(offs): push the high, then the low byte of PC + offs. (The Java passes
      `toaddr >> 8` of a signed short; its low eight bits, the only ones stored, are the high
      byte.) */
  function PushAddress(s: State, offs: int): (t: State)
    requires s.Valid()
    ensures t.Valid()
  {
    var target := ToWord(s.pc + offs);
    Push(Push(s, HighByte(target)), LowByte(target))
  }

  /** popPC: pop the low, then the high byte into PC. */
  function PopAddress(s: State): (t: State)
    requires s.Valid()
    ensures t.Valid()
  {
    var (s1, low) := Pop(s);
    var (s2, high) := Pop(s1);
    s2.(pc := BytesToShort(low, high))
  }

  // ================================================================ properties of the primitives

  /** writeRAM stores the low byte at the address, leaves every other cell and register alone,
      and notifies the display exactly when the address is one of the 1024 framebuffer cells. */
  lemma WriteEffect(s: State, addr: Word, value: int)
    requires s.Valid()
    ensures var t := Write(s, addr, value);
      && t.ram[addr] == ToByte(value)
      && (forall c :: 0 <= c < MemSize && c != addr ==> t.ram[c] == s.ram[c])
      && t.(ram := s.ram, frames := s.frames) == s
      && (InFramebuffer(addr) ==>
            (|t.frames| == |s.frames| + 1 && t.frames[..|s.frames|] == s.frames
             && t.frames[|s.frames|] == PixelFor(addr, ToByte(value))))
      && (!InFramebuffer(addr) ==> t.frames == s.frames)
  {
  }

  /** stackPop undoes stackPush: the byte comes back and SP is restored. */
  lemma PopAfterPush(s: State, value: int)
    requires s.Valid()
    ensures var (t, b) := Pop(Push(s, value));
      b == ToByte(value) && t.sp == s.sp && t.pc == s.pc && t.a == s.a && t.x == s.x && t.y == s.y
      && t.flags == s.flags
  {
  }

  /** popPC after pushPC(offs) sets PC to PC + offs (16-bit) and restores SP: the return path
      of JSR/RTS and BRK/RTI. */
  lemma PopAddressAfterPushAddress(s: State, offs: int)
    requires s.Valid()
    ensures var t := PopAddress(PushAddress(s, offs));
      t.pc == ToWord(s.pc + offs) && t.sp == s.sp && t.a == s.a && t.x == s.x && t.y == s.y
      && t.flags == s.flags
  {
    var target := ToWord(s.pc + offs);
    var s1 := Push(s, HighByte(target));
    var s2 := Push(s1, LowByte(target));
    assert s2.ram[StackPage + ToByte(s2.sp + 1)] == LowByte(target);
    assert s2.ram[StackPage + ToByte(s2.sp + 2)] == HighByte(target);
  }

  /** stackPush over a sequence of values, first to last. */
  function PushAll(s: State, vs: seq<int>): (t: State)
    requires s.Valid()
    ensures t.Valid()
    decreases |vs|
  {
    if vs == [] then s else PushAll(Push(s, vs[0]), vs[1..])
  }

  /** n stackPops, collecting the bytes in the order they come off the stack. */
  function PopMany(s: State, n: nat): (r: (State, seq<Byte>))
    requires s.Valid()
    ensures r.0.Valid() && |r.1| == n
    decreases n
  {
    if n == 0 then (s, [])
    else
      var (t, b) := Pop(s);
      var (u, bs) := PopMany(t, n - 1);
      (u, [b] + bs)
  }

  /** After up to 256 pushes SP has moved down by the count and the registers are untouched. */
  lemma {:induction false} PushAllRegisters(s: State, vs: seq<int>)
    requires s.Valid()
    ensures var t := PushAll(s, vs);
      && t.sp == ToByte(s.sp - |vs|)
      && t.pc == s.pc && t.a == s.a && t.x == s.x && t.y == s.y && t.flags == s.flags
    decreases |vs|
  {
    if vs != [] {
      PushAllRegisters(Push(s, vs[0]), vs[1..]);
    }
  }

  /** After up to 256 pushes the k-th value pushed sits at 0x0100 + (SP - k) mod 256; the cells
      of page 1 not yet reached are untouched. */
  lemma {:induction false} PushAllCell(s: State, vs: seq<int>, k: int)
    requires s.Valid() && |vs| <= 256 && 0 <= k < 256
    ensures k < |vs| ==> PushAll(s, vs).ram[StackPage + ToByte(s.sp - k)] == ToByte(vs[k])
    ensures k >= |vs| ==> PushAll(s, vs).ram[StackPage + ToByte(s.sp - k)] == s.ram[StackPage + ToByte(s.sp - k)]
    decreases |vs|
  {
    if vs != [] {
      var s1 := Push(s, vs[0]);
      var k' := if k == 0 then 255 else k - 1;
      var cell := StackPage + ToByte(s.sp - k);
      PushAllCell(s1, vs[1..], k');
      assert ToByte(s1.sp - k') == ToByte(s.sp - k);
      if k == 0 {
        assert s1.ram[cell] == ToByte(vs[0]);
      } else if k < |vs| {
        assert vs[1..][k'] == vs[k];
      } else {
        assert cell != StackPage + s.sp;
      }
    }
  }

  /** n pops raise SP by n and change nothing else. */
  lemma {:induction false} PopManyState(s: State, n: nat)
    requires s.Valid()
    ensures PopMany(s, n).0 == s.(sp := ToByte(s.sp + n))
    decreases n
  {
    if n > 0 {
      var (t, b) := Pop(s);
      PopManyState(t, n - 1);
      StackStep(s.sp, n);
      assert PopMany(s, n).0 == PopMany(t, n - 1).0;
    }
  }

  /** One pop, then n - 1 more, raise SP by n. */
  lemma StackStep(sp: Byte, n: nat)
    requires n > 0
    ensures ToByte(ToByte(sp + 1) + (n - 1)) == ToByte(sp + n)
  {
  }

  /** The j-th byte popped is the one j + 1 cells above SP, modulo 256. */
  lemma {:induction false} PopManyCell(s: State, n: nat, j: nat)
    requires s.Valid() && j < n
    ensures PopMany(s, n).1[j] == s.ram[StackPage + ToByte(s.sp + 1 + j)]
    decreases n
  {
    var (t, b) := Pop(s);
    if j > 0 {
      PopManyCell(t, n - 1, j - 1);
      assert ToByte(t.sp + 1 + (j - 1)) == ToByte(s.sp + 1 + j);
    }
  }

  /** The stack is last-in first-out: popping as many bytes as were pushed (at most the 256
      cells of page 1) returns them in reverse order and restores SP. */
  lemma {:induction false} StackIsLifo(s: State, vs: seq<int>)
    requires s.Valid() && |vs| <= 256
    ensures PopMany(PushAll(s, vs), |vs|).0.sp == s.sp
    ensures forall j :: 0 <= j < |vs| ==> PopMany(PushAll(s, vs), |vs|).1[j] == ToByte(vs[|vs| - 1 - j])
  {
    PushAllRegisters(s, vs);
    PopManyState(PushAll(s, vs), |vs|);
    StackRestored(s.sp, PushAll(s, vs).sp, |vs|);
    forall j | 0 <= j < |vs|
      ensures PopMany(PushAll(s, vs), |vs|).1[j] == ToByte(vs[|vs| - 1 - j])
    {
      PoppedElement(s, vs, j);
    }
  }

  /** One element of the LIFO property. */
  lemma {:induction false} PoppedElement(s: State, vs: seq<int>, j: nat)
    requires s.Valid() && |vs| <= 256 && j < |vs|
    ensures PopMany(PushAll(s, vs), |vs|).1[j] == ToByte(vs[|vs| - 1 - j])
  {
    PushAllRegisters(s, vs);
    PushAllCell(s, vs, |vs| - 1 - j);
    PoppedFromLayout(s.sp, PushAll(s, vs), |vs|, j, ToByte(vs[|vs| - 1 - j]));
  }

  /** The j-th of n pops reads the cell the (n-1-j)-th of n pushes wrote. */
  lemma {:induction false} PoppedFromLayout(sp: Byte, t: State, n: nat, j: nat, v: Byte)
    requires t.Valid() && j < n
    requires t.sp == ToByte(sp - n)
    requires t.ram[StackPage + ToByte(sp - (n - 1 - j))] == v
    ensures PopMany(t, n).1[j] == v
  {
    PopManyCell(t, n, j);
    StackSlot(sp, t.sp, n, j);
  }

  /** Moving SP down by n and back up by n restores it. */
  lemma StackRestored(sp: Byte, top: Byte, n: nat)
    requires top == ToByte(sp - n)
    ensures ToByte(top + n) == sp
  {
  }

  /** The cell the j-th pop reads is the one the (n-1-j)-th push wrote. */
  lemma StackSlot(sp: Byte, top: Byte, n: nat, j: nat)
    requires j < n && top == ToByte(sp - n)
    ensures ToByte(top + 1 + j) == ToByte(sp - (n - 1 - j))
  {
  }

  // ================================================================ importing memory

  /** importRAM(short from, int... mem): each value is written to the next address, wrapping
      at 0xFFFF. */
  function ImportWords(s: State, from: Word, mem: seq<int>): (t: State)
    requires s.Valid()
    ensures t.Valid()
    decreases |mem|
  {
    if mem == [] then s else ImportWords(Write(s, from, mem[0]), ToWord(from + 1), mem[1..])
  }

  /** The code part of one importRAM line: empty pieces are skipped, every other piece is a hex
      number written at the next address. The flag is false where parseInt throws; the writes
      already made are kept. */
  function ImportCodes(s: State, address: int, codes: seq<string>): (r: (State, bool))
    requires s.Valid()
    ensures r.0.Valid()
    decreases |codes|
  {
    if codes == [] then (s, true)
    else if codes[0] == "" then ImportCodes(s, address, codes[1..])
    else match ParseInt(codes[0], 16)
      case None => (s, false)
      case Some(v) => ImportCodes(Write(s, ToWord(address), v), address + 1, codes[1..])
  }

  /** One line "aaaa: bb bb ...": false when the line has no second ':'-piece or the address
      does not parse. */
  function ImportLine(s: State, line: string): (r: (State, bool))
    requires s.Valid()
    ensures r.0.Valid()
  {
    var parts := Split(line, ':');
    if |parts| < 2 then (s, false)
    else
      var codes := Split(parts[1], ' ');
      match ParseInt(parts[0], 16)
      case None => (s, false)
      case Some(address) => ImportCodes(s, address, codes)
  }

  /** importRAM(String[]): the lines in order; the first failing line stops the import. */
  function ImportLines(s: State, lines: seq<string>): (r: (State, bool))
    requires s.Valid()
    ensures r.0.Valid()
    decreases |lines|
  {
    if lines == [] then (s, true)
    else
      var (t, ok) := ImportLine(s, lines[0]);
      if !ok then (t, false) else ImportLines(t, lines[1..])
  }

  // ================================================================ the machine

  /** CPU6502 with its state in place: the RAM is an array of 65536 bytes and the registers are
      fields. Each method is specified by the function above that it implements, through
      `Snapshot()`. */
  class Cpu {
    const ram: array<Byte>
    var pc: Word
    var sp: Byte
    var a: Byte
    var x: Byte
    var y: Byte
    var flags: bv8
    var halt: bool
    var executionTime: int
    var waitCycles: int
    ghost var frames: seq<Pixel>

    predicate Valid()
    {
      ram.Length == MemSize
    }

    /** The whole machine as a value. */
    ghost function Snapshot(): (s: State)
      reads this, ram
      requires Valid()
      ensures s.Valid()
    {
      State(ram[..], pc, sp, a, x, y, flags, halt, executionTime, waitCycles, frames)
    }

    constructor ()
      ensures Valid() && fresh(ram)
      ensures Snapshot() == Initial()
    {
      ram := new Byte[MemSize](_ => 0);
      pc := ResetPC;
      sp := ResetSP;
      a, x, y := 0, 0, 0;
      flags := 0;
      executionTime := 0;
      waitCycles := 0;
      halt := true;
      frames := [];
      new;
      ResetFlags();
      assert ram[..] == seq(MemSize, _ => 0);
    }

    predicate HasFlag(f: Flag)
      reads this
    {
      GetFlag(flags, f)
    }

    method SetFlag(f: Flag, enable: bool)
      requires Valid()
      modifies this
      ensures Snapshot() == old(Snapshot()).(flags := WithFlag(old(flags), f, enable))
    {
      if enable {
        flags := flags | Mask(f);
      } else {
        flags := flags & !Mask(f);
      }
    }

    method ResetFlags()
      requires Valid()
      modifies this
      ensures Snapshot() == old(Snapshot()).(flags := PowerOnFlags())
    {
      flags := 0;
      SetFlag(Undefined, true);
      SetFlag(Break, true);
    }

    function ReadRam(addr: Word): Byte
      reads ram
      requires Valid()
    {
      ram[addr]
    }

    method WriteRam(addr: Word, value: int)
      requires Valid()
      modifies this, ram
      ensures Snapshot() == Write(old(Snapshot()), addr, value)
    {
      var stored := ToByte(value);
      ram[addr] := stored;
      if InFramebuffer(addr) {
        frames := frames + [PixelFor(addr, stored)];
      }
    }

    method WriteRamWithFlags(addr: Word, value: int)
      requires Valid()
      modifies this, ram
      ensures Snapshot() == WriteWithFlags(old(Snapshot()), addr, value)
    {
      WriteRam(addr, value);
      SetFlagsResult(ToByte(value));
    }

    method NextBytePC() returns (b: Byte)
      requires Valid()
      modifies this
      ensures (Snapshot(), b) == NextByte(old(Snapshot()))
    {
      pc := ToWord(pc + 1);
      b := ram[pc];
    }

    method NextBytesPC() returns (w: Word)
      requires Valid()
      modifies this
      ensures (Snapshot(), w) == NextWord(old(Snapshot()))
    {
      var low := NextBytePC();
      var high := NextBytePC();
      w := BytesToShort(low, high);
    }

    /** immediateAddress: the unsigned operand byte. */
    method ImmediateAddress() returns (v: Word)
      requires Valid()
      modifies this
      ensures (Snapshot(), v) == NextByte(old(Snapshot()))
    {
      v := NextBytePC();
    }

    method ZeroPage(reg: Byte) returns (addr: Word)
      requires Valid()
      modifies this
      ensures (Snapshot(), addr) == ZeroPageAddr(old(Snapshot()), reg)
    {
      var operand := NextBytePC();
      addr := ToByte(operand + reg);
    }

    method Absolute(reg: Byte) returns (addr: Word)
      requires Valid()
      modifies this
      ensures (Snapshot(), addr) == AbsoluteAddr(old(Snapshot()), reg)
    {
      var base := NextBytesPC();
      addr := ToWord(base + reg);
    }

    method IndirectX() returns (addr: Word)
      requires Valid()
      modifies this
      ensures (Snapshot(), addr) == IndirectXAddr(old(Snapshot()))
    {
      var operand := NextBytePC();
      var zp := ToByte(operand + x);
      addr := BytesToShort(ram[zp], ram[zp + 1]);
    }

    method IndirectY() returns (addr: Word)
      requires Valid()
      modifies this
      ensures (Snapshot(), addr) == IndirectYAddr(old(Snapshot()))
    {
      var zp := NextBytePC();
      addr := ToWord(BytesToShort(ram[zp], ram[zp + 1]) + Signed(y));
    }

    method ReadZeroPage(reg: Byte) returns (v: Byte)
      requires Valid()
      modifies this
      ensures (Snapshot(), v) == Fetch(ZeroPageAddr(old(Snapshot()), reg))
    {
      var addr := ZeroPage(reg);
      v := ram[addr];
    }

    method ReadAbsolute(reg: Byte) returns (v: Byte)
      requires Valid()
      modifies this
      ensures (Snapshot(), v) == Fetch(AbsoluteAddr(old(Snapshot()), reg))
    {
      var addr := Absolute(reg);
      v := ram[addr];
    }

    method ReadIndirectX() returns (v: Byte)
      requires Valid()
      modifies this
      ensures (Snapshot(), v) == Fetch(IndirectXAddr(old(Snapshot())))
    {
      var addr := IndirectX();
      v := ram[addr];
    }

    /** readIndirectY resolves its address through indirectX, not indirectY. */
    method ReadIndirectY() returns (v: Byte)
      requires Valid()
      modifies this
      ensures (Snapshot(), v) == Fetch(IndirectXAddr(old(Snapshot())))
    {
      var addr := IndirectX();
      v := ram[addr];
    }

    method StackPush(value: int)
      requires Valid()
      modifies this, ram
      ensures Snapshot() == Push(old(Snapshot()), value)
    {
      var old_sp := sp;
      sp := ToByte(sp - 1);
      WriteRam(StackPage + old_sp, value);
    }

    method StackPop() returns (b: Byte)
      requires Valid()
      modifies this
      ensures (Snapshot(), b) == Pop(old(Snapshot()))
    {
      sp := ToByte(sp + 1);
      b := ram[StackPage + sp];
    }

    method PushPC(offs: int)
      requires Valid()
      modifies this, ram
      ensures Snapshot() == PushAddress(old(Snapshot()), offs)
    {
      var target := ToWord(pc + offs);
      StackPush(HighByte(target));
      StackPush(LowByte(target));
    }

    method PopPC()
      requires Valid()
      modifies this
      ensures Snapshot() == PopAddress(old(Snapshot()))
    {
      var low := StackPop();
      var high := StackPop();
      pc := BytesToShort(low, high);
    }

    method SetFlagsResult(result: Byte)
      requires Valid()
      modifies this
      ensures Snapshot() == old(Snapshot()).(flags := ResultFlags(old(flags), result))
    {
      SetFlag(Zero, result == 0);
      SetFlag(Negative, Signed(result) < 0);
    }

    method SetFlagsResultOverflow(result: Byte, intResult: int)
      requires Valid()
      modifies this
      ensures Snapshot() == old(Snapshot()).(flags := ResultFlagsOverflow(old(flags), result, intResult))
    {
      SetFlagsResult(result);
      SetFlag(Overflow, OverflowApprox(intResult));
    }

    method SetFlagsCmp(u: Byte, v: Byte)
      requires Valid()
      modifies this
      ensures Snapshot() == old(Snapshot()).(flags := CmpFlags(old(flags), u, v))
    {
      SetFlag(Carry, u >= v);
      SetFlagsResult(ToByte(u - v));
    }

    method SetFlagsAdc(u: Byte, v: Byte)
      requires Valid()
      modifies this
      ensures Snapshot() == old(Snapshot()).(flags := AdcFlags(old(flags), u, v))
    {
      var carryR := u + v;
      if carryR > 0xFF {
        SetFlag(Carry, true);
      }
      SetFlagsResultOverflow(ToByte(carryR), Signed(u) + Signed(v));
    }

    method SetFlagsSbc(u: Byte, v: Byte)
      requires Valid()
      modifies this
      ensures Snapshot() == old(Snapshot()).(flags := SbcFlags(old(flags), u, v))
    {
      var carryR := u - v;
      if carryR < 0 {
        SetFlag(Carry, false);
      }
      SetFlagsResultOverflow(ToByte(carryR), Signed(u) - Signed(v));
    }

    /** setRegA / setRegX / setRegY */
    method SetReg(r: Reg, v: Byte)
      requires Valid()
      modifies this
      ensures Snapshot() == WithReg(old(Snapshot()), r, v)
    {
      match r {
        case A => a := v;
        case X => x := v;
        case Y => y := v;
      }
      SetFlagsResult(v);
    }

    /** importRAM(short from, int... mem) */
    method ImportRam(from: Word, mem: seq<int>)
      requires Valid()
      modifies this, ram
      ensures Snapshot() == ImportWords(old(Snapshot()), from, mem)
    {
      var address := from;
      var i := 0;
      while i < |mem|
        invariant 0 <= i <= |mem|
        invariant ImportWords(Snapshot(), address, mem[i..]) == ImportWords(old(Snapshot()), from, mem)
      {
        assert mem[i..][1..] == mem[i + 1..];
        WriteRam(address, mem[i]);
        address := ToWord(address as int + 1);
        i := i + 1;
      }
    }

    /** importRAM(String[]): `ok` is false where the source throws (a line without a code part,
        or a number that does not parse); the writes made before that point remain. */
    method ImportRamLines(lines: seq<string>) returns (ok: bool)
      requires Valid()
      modifies this, ram
      ensures (Snapshot(), ok) == ImportLines(old(Snapshot()), lines)
    {
      var i := 0;
      while i < |lines|
        invariant 0 <= i <= |lines|
        invariant ImportLines(Snapshot(), lines[i..]) == ImportLines(old(Snapshot()), lines)
      {
        assert lines[i..][1..] == lines[i + 1..];
        var lineOk := ImportRamLine(lines[i]);
        if !lineOk {
          return false;
        }
        i := i + 1;
      }
      return true;
    }

    /** The body of the loop of importRAM(String[]) for one line. */
    method ImportRamLine(line: string) returns (ok: bool)
      requires Valid()
      modifies this, ram
      ensures (Snapshot(), ok) == ImportLine(old(Snapshot()), line)
    {
      var parts := Split(line, ':');
      if |parts| < 2 {
        return false;
      }
      var codes := Split(parts[1], ' ');
      var start := ParseInt(parts[0], 16);
      if start.None? {
        return false;
      }
      var address := start.value;
      var i := 0;
      while i < |codes|
        invariant 0 <= i <= |codes|
        invariant ImportCodes(Snapshot(), address, codes[i..]) == ImportLine(old(Snapshot()), line)
      {
        assert codes[i..][1..] == codes[i + 1..];
        if codes[i] != "" {
          var v := ParseInt(codes[i], 16);
          if v.None? {
            return false;
          }
          WriteRam(ToWord(address), v.value);
          address := address + 1;
        }
        i := i + 1;
      }
      return true;
    }
  }
}
