/** Byte- and word-level helpers that spell out Java's fixed-width integer behaviour:
    the emulator stores bytes as Java `byte` (signed) and addresses as Java `short`, and reads
    them back unsigned through `Byte.toUnsignedInt` / `Short.toUnsignedInt`. The model keeps the
    unsigned view and writes every truncation and sign extension out. */
module Bits {

  /** An unsigned 8-bit value: what `Byte.toUnsignedInt` yields. */
  type Byte = b: int | 0 <= b < 0x100

  /** An unsigned 16-bit value: what `Short.toUnsignedInt` yields. */
  type Word = w: int | 0 <= w < 0x10000

  /** Java's `(byte) v`, read back unsigned: the low eight bits of `v` (Dafny's `%` is
      Euclidean, so this is also right for negative `v`). */
  function ToByte(v: int): Byte { v % 0x100 }

  /** Java's `(short) v`, read back unsigned: the low sixteen bits of `v`. */
  function ToWord(v: int): Word { v % 0x10000 }

  /** The value Java sees when it widens a `byte` to `int`. */
  function Signed(b: Byte): (r: int)
    ensures -128 <= r < 128
    ensures ToByte(r) == b
    ensures r < 0 <==> b >= 0x80
  {
    if b < 0x80 then b else b - 0x100
  }

  /** A displacement of -128..128 stored as a byte reads back as itself, except that 128 reads
      back as -128. */
  lemma SignedToByte(v: int)
    requires -128 <= v <= 128
    ensures Signed(ToByte(v)) == if v == 128 then -128 else v
  {
    if v < 0 {
      assert ToByte(v) == v + 0x100;
    }
  }

  function And(a: Byte, b: Byte): Byte { ((a as bv8) & (b as bv8)) as int }
  function Or(a: Byte, b: Byte): Byte { ((a as bv8) | (b as bv8)) as int }
  function Xor(a: Byte, b: Byte): Byte { ((a as bv8) ^ (b as bv8)) as int }

  /** A bit pattern stored as an unsigned byte and read back is unchanged. */
  lemma BitsRoundTrip(f: bv8)
    ensures ToByte(f as int) as bv8 == f
  {
    assert ToByte(f as int) == f as int;
  }

  /** Adding to a wrapped 8-bit value and wrapping again is one wrapped sum. */
  lemma ByteSum(a: int, b: int)
    ensures ToByte(ToByte(a) + b) == ToByte(a + b)
  {
    assert a == ToByte(a) + 0x100 * (a / 0x100);
  }

  /** An address already in range is its own word. */
  lemma WordOf(v: int)
    requires 0 <= v < 0x10000
    ensures ToWord(v) == v
  {
  }

  /** Adding to a wrapped 16-bit value and wrapping again is one wrapped sum. */
  lemma WordSum(a: int, b: int)
    ensures ToWord(ToWord(a) + b) == ToWord(a + b)
  {
    assert a == ToWord(a) + 0x10000 * (a / 0x10000);
  }

  /** Bit `k` (0 = least significant) of `b`. */
  predicate BitSet(b: Byte, k: nat)
    requires k < 8
  {
    (b as bv8) & ((1 as bv8) << k) != 0
  }

  /** Java's 32-bit `int` arithmetic: the value `v` wraps to. */
  function Int32(v: int): (r: int)
    ensures -0x8000_0000 <= r < 0x8000_0000
    ensures -0x8000_0000 <= v < 0x8000_0000 ==> r == v
  {
    (v + 0x8000_0000) % 0x1_0000_0000 - 0x8000_0000
  }

  /** The high and low bytes of a word. */
  function HighByte(w: Word): Byte { w / 0x100 }
  function LowByte(w: Word): Byte { w % 0x100 }
}
