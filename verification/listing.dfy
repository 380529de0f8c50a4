/** The assembler's listing read back by the emulator. assemble() in Assemble6502.java returns
    rows "aaaa: bb bb ... " of at most sixteen bytes, a new row at every address that is a
    multiple of 16; importRAM(String[]) in CPU6502.java parses each row's address and writes
    its bytes from there. For a program loaded at a multiple of 16 that fits below 0x10000,
    the rows are exactly the sixteen-byte chunks of the output, and importing them writes the
    program at the entry point and nothing else. An empty program's listing is one empty row,
    which importRAM cannot parse. */
module RoundTrip {
  import opened Bits
  import opened Wrappers
  import opened Text
  import opened Cpu6502
  import opened Assembler

  // ================================================================ the rows

  /** "bb " for every byte, in order. */
  function Codes(bs: seq<Byte>): string
  {
    if bs == [] then "" else FormatHex(bs[0], 2) + " " + Codes(bs[1..])
  }

  /** The two-digit numbers of the bytes, in order. */
  function Hexes(bs: seq<Byte>): (r: seq<string>)
    ensures |r| == |bs| && forall j :: 0 <= j < |bs| ==> r[j] == FormatHex(bs[j], 2)
  {
    if bs == [] then [] else [FormatHex(bs[0], 2)] + Hexes(bs[1..])
  }

  /** The row for the bytes bs at address a. */
  function Row(a: int, bs: seq<Byte>): string
    requires 0 <= a < 0x10000
  {
    FormatHex(a, 4) + ": " + Codes(bs)
  }

  /** The rows of the full sixteen-byte chunks of bs, the first at address a. */
  function Chunks(a: int, bs: seq<Byte>): seq<string>
    requires 0 <= a && a + |bs| <= 0x10000
    decreases |bs|
  {
    if |bs| < 16 then [] else [Row(a, bs[..16])] + Chunks(a + 16, bs[16..])
  }

  /** The digits of v, `width` of them, which parse back as v. */
  lemma HexField(v: int, width: nat)
    requires 0 <= v < Pow16(width) && v <= IntMax && width >= 1
    ensures |FormatHex(v, width)| == width && AllHex(FormatHex(v, width))
    ensures ParseInt(FormatHex(v, width), 16) == Some(v)
  {
    FormatHexWidth(v, width);
    FormatHexDigits(v, width);
    FormatHexParses(v, width);
  }

  lemma ByteField(b: Byte)
    ensures |FormatHex(b, 2)| == 2 && AllHex(FormatHex(b, 2))
    ensures ParseInt(FormatHex(b, 2), 16) == Some(b as int)
  {
    assert Pow16(2) == 0x100;
    HexField(b, 2);
  }

  lemma AddressField(a: int)
    requires 0 <= a < 0x10000
    ensures |FormatHex(a, 4)| == 4 && AllHex(FormatHex(a, 4))
    ensures ParseInt(FormatHex(a, 4), 16) == Some(a)
  {
    assert Pow16(4) == 0x10000;
    HexField(a, 4);
  }

  /** A row's code text is made of hex digits and spaces. */
  lemma {:induction false} CodesChars(bs: seq<Byte>)
    ensures forall k :: 0 <= k < |Codes(bs)| ==> IsHexDigit(Codes(bs)[k]) || Codes(bs)[k] == ' '
  {
    if bs != [] {
      CodesChars(bs[1..]);
      ByteField(bs[0]);
      var x := FormatHex(bs[0], 2);
      forall k | 0 <= k < |Codes(bs)|
        ensures IsHexDigit(Codes(bs)[k]) || Codes(bs)[k] == ' '
      {
        if k >= 3 {
          assert Codes(bs)[k] == Codes(bs[1..])[k - 3];
        } else if k < 2 {
          assert Codes(bs)[k] == x[k];
        }
      }
    }
  }

  /** Adding a byte at the end adds its "bb " at the end. */
  lemma {:induction false} CodesAppend(bs: seq<Byte>, b: Byte)
    ensures Codes(bs + [b]) == Codes(bs) + FormatHex(b, 2) + " "
  {
    if bs != [] {
      assert (bs + [b])[1..] == bs[1..] + [b];
      CodesAppend(bs[1..], b);
    } else {
      var one: seq<Byte> := [b];
      assert bs + [b] == one && one[1..] == [];
    }
  }

  /** Adding a full chunk at the end adds its row at the end. */
  lemma {:induction false} ChunksAppend(a: int, x: seq<Byte>, y: seq<Byte>, n: nat)
    requires |x| == 16 * n && |y| == 16 && 0 <= a && a + |x| + 16 <= 0x10000
    ensures Chunks(a, x + y) == Chunks(a, x) + [Row(a + |x|, y)]
    decreases n
  {
    if x == [] {
      assert x + y == y && y[..16] == y && y[16..] == [];
      assert Chunks(a, y) == [Row(a, y)] + Chunks(a + 16, []);
    } else {
      assert (x + y)[..16] == x[..16];
      assert (x + y)[16..] == x[16..] + y;
      ChunksAppend(a + 16, x[16..], y, n - 1);
      assert Chunks(a, x + y) == [Row(a, x[..16])] + Chunks(a + 16, x[16..] + y);
    }
  }

  // ================================================================ the listing loop

  /** A row is never empty: it starts with its address. */
  lemma RowStart(a: int, bs: seq<Byte>)
    requires 0 <= a < 0x10000
    ensures |Row(a, bs)| > 0
  {
    AddressField(a);
  }

  /** At a multiple of 16 the loop finishes a non-empty row and starts the row of b. */
  lemma ListByteNewRow(rows: seq<string>, current: string, i: int, b: Byte)
    requires 0 <= i < 0x10000 && i % 16 == 0 && |current| > 0
    ensures ListByte(Listing(rows, current), i, b) == Listing(rows + [current], Row(i, [b]))
  {
    RowOne(i, b);
  }

  /** The first byte, at a multiple of 16, starts the row of that byte. */
  lemma ListByteFirst(i: int, b: Byte)
    requires 0 <= i < 0x10000 && i % 16 == 0
    ensures ListByte(Listing([], ""), i, b) == Listing([], Row(i, [b]))
  {
    RowOne(i, b);
    assert "" + FormatHex(i, 4) + ": " == FormatHex(i, 4) + ": ";
  }

  /** The row of one byte. */
  lemma RowOne(a: int, b: Byte)
    requires 0 <= a < 0x10000
    ensures Row(a, [b]) == FormatHex(a, 4) + ": " + FormatHex(b, 2) + " "
  {
    var one: seq<Byte> := [b];
    assert one[1..] == [];
    assert Codes(one) == FormatHex(b, 2) + " " + "";
  }

  /** Elsewhere the loop adds b to the current row. */
  lemma ListByteSame(rows: seq<string>, a: int, bs: seq<Byte>, i: int, b: Byte)
    requires 0 <= a < 0x10000 && IntMin <= i <= IntMax && i % 16 != 0
    ensures ListByte(Listing(rows, Row(a, bs)), i, b) == Listing(rows, Row(a, bs + [b]))
  {
    CodesAppend(bs, b);
  }

  /** A slice one element longer is the slice with that element added. */
  lemma SliceExtend(s: seq<Byte>, a: int, b: int)
    requires 0 <= a < b <= |s|
    ensures s[a..b - 1] + [s[b - 1]] == s[a..b]
  {
  }

  /** Where the row holding byte k - 1 starts, and how it relates to that of byte k - 2. */
  lemma RowIndex(entry: int, k: int)
    requires k > 1 && entry % 16 == 0
    ensures var q', q := (k - 2) / 16, (k - 1) / 16;
      0 <= 16 * q' <= 16 * q <= k - 1 && k - 1 - 16 * q' <= 16
      && (entry + k - 1) % 16 == (k - 1) % 16
      && (if (k - 1) % 16 == 0 then q == q' + 1 && 16 * q == k - 1 else q == q')
  {
  }

  /** After k > 0 bytes of a program loaded at a multiple of 16, the listing holds the rows of
      the full chunks before the current one, and the current row holds the rest. */
  lemma {:induction false} ListShape(entry: int, out: seq<Byte>, k: nat)
    requires entry % 16 == 0 && 0 <= entry && entry + |out| <= 0x10000 && 0 < k <= |out|
    ensures var q := (k - 1) / 16;
      ListUpTo(entry, out, k) == Listing(Chunks(entry, out[..16 * q]), Row(entry + 16 * q, out[16 * q..k]))
  {
    if k == 1 {
      ListFirst(entry, out);
    } else {
      ListShape(entry, out, k - 1);
      RowIndex(entry, k);
      var q', q := (k - 2) / 16, (k - 1) / 16;
      if (k - 1) % 16 == 0 {
        ListNewRow(entry, out, k, q');
      } else {
        ListSameRow(entry, out, k, q');
      }
    }
  }

  /** The listing after the first byte is that byte's row. */
  lemma ListFirst(entry: int, out: seq<Byte>)
    requires entry % 16 == 0 && 0 <= entry && entry + |out| <= 0x10000 && 0 < |out|
    ensures ListUpTo(entry, out, 1) == Listing(Chunks(entry, out[..0]), Row(entry, out[0..1]))
  {
    assert ListUpTo(entry, out, 0) == Listing([], "");
    ListByteFirst(entry, out[0]);
    assert out[0..1] == [out[0]];
    assert out[..0] == [];
  }

  /** The listing loop's turn for byte k - 1. */
  lemma ListUnfold(entry: int, out: seq<Byte>, k: nat)
    requires 0 < k <= |out| && IntMin <= entry && entry + k <= IntMax + 1
    ensures ListUpTo(entry, out, k) == ListByte(ListUpTo(entry, out, k - 1), entry + k - 1, out[k - 1])
  {
  }

  /** Byte k - 1 at a multiple of 16 finishes the current row, which was a full chunk, and
      starts its own. */
  lemma ListNewRow(entry: int, out: seq<Byte>, k: nat, q': int)
    requires entry % 16 == 0 && 0 <= entry && entry + |out| <= 0x10000 && 1 < k <= |out|
    requires 0 <= q' && 16 * q' + 16 == k - 1 && (entry + k - 1) % 16 == 0
    requires ListUpTo(entry, out, k - 1)
      == Listing(Chunks(entry, out[..16 * q']), Row(entry + 16 * q', out[16 * q'..k - 1]))
    ensures ListUpTo(entry, out, k)
      == Listing(Chunks(entry, out[..k - 1]), Row(entry + k - 1, out[k - 1..k]))
  {
    var i := entry + k - 1;
    var before := out[..16 * q'];
    var row := out[16 * q'..k - 1];
    ListUnfold(entry, out, k);
    RowStart(entry + 16 * q', row);
    ListByteNewRow(Chunks(entry, before), Row(entry + 16 * q', row), i, out[k - 1]);
    assert before + row == out[..k - 1];
    ChunksAppend(entry, before, row, q');
    assert out[k - 1..k] == [out[k - 1]];
  }

  /** Elsewhere byte k - 1 joins the current row. */
  lemma ListSameRow(entry: int, out: seq<Byte>, k: nat, q: int)
    requires entry % 16 == 0 && 0 <= entry && entry + |out| <= 0x10000 && 1 < k <= |out|
    requires 0 <= 16 * q < k - 1 && (entry + k - 1) % 16 != 0
    requires ListUpTo(entry, out, k - 1)
      == Listing(Chunks(entry, out[..16 * q]), Row(entry + 16 * q, out[16 * q..k - 1]))
    ensures ListUpTo(entry, out, k)
      == Listing(Chunks(entry, out[..16 * q]), Row(entry + 16 * q, out[16 * q..k]))
  {
    var row := out[16 * q..k - 1];
    ListUnfold(entry, out, k);
    ListByteSame(Chunks(entry, out[..16 * q]), entry + 16 * q, row, entry + k - 1, out[k - 1]);
    SliceExtend(out, 16 * q, k);
  }

  /** The listing of a non-empty program loaded at a multiple of 16 below 0x10000: the rows of
      its full sixteen-byte chunks, then the row of what is left (up to sixteen bytes). */
  lemma ListingRows(entry: int, out: seq<Byte>)
    requires entry % 16 == 0 && 0 <= entry && entry + |out| <= 0x10000 && |out| > 0
    ensures var q := (|out| - 1) / 16;
      Disassembly(entry, out) == Chunks(entry, out[..16 * q]) + [Row(entry + 16 * q, out[16 * q..])]
  {
    var n := |out|;
    var q := (n - 1) / 16;
    LastRowStart(n);
    assert Listed(entry, n) == n;
    ListShape(entry, out, n);
    var l := ListUpTo(entry, out, n);
    assert out[16 * q..n] == out[16 * q..];
    assert l == Listing(Chunks(entry, out[..16 * q]), Row(entry + 16 * q, out[16 * q..]));
    assert Disassembly(entry, out) == l.rows + [l.current];
  }

  /** An empty program's listing is one empty row. */
  lemma EmptyListing(entry: int)
    requires IntMin <= entry <= IntMax
    ensures Disassembly(entry, []) == [""]
  {
  }

  // ================================================================ importRAM on the rows

  /** A row splits at its one ':' into the address and the code text. */
  lemma SplitRow(a: int, bs: seq<Byte>)
    requires 0 <= a < 0x10000
    ensures Split(Row(a, bs), ':') == [FormatHex(a, 4), " " + Codes(bs)]
  {
    AddressField(a);
    CodesChars(bs);
    var h := FormatHex(a, 4);
    var rest := " " + Codes(bs);
    forall t | 0 <= t < |h| ensures h[t] != ':' {
      assert IsHexDigit(h[t]);
    }
    forall t | 0 <= t < |rest| ensures rest[t] != ':' {
      if t > 0 {
        assert rest[t] == Codes(bs)[t - 1];
      }
    }
    assert Row(a, bs) == h + [':'] + rest;
    PiecesAfter(h, ':', rest);
    assert Pieces(rest, ':') == [rest];
    assert DropTrailingEmpty([h] + [rest]) == [h, rest];
  }

  /** A byte's two digits hold no space. */
  lemma NoSpace(b: Byte)
    ensures |FormatHex(b, 2)| == 2 && ' ' !in FormatHex(b, 2)
  {
    ByteField(b);
    var x := FormatHex(b, 2);
    assert IsHexDigit(x[0]) && IsHexDigit(x[1]);
    assert x == [x[0], x[1]];
  }

  /** The code text splits at its spaces into the byte numbers and one empty piece after the
      last space. */
  lemma {:induction false} PiecesCodes(bs: seq<Byte>)
    ensures Pieces(Codes(bs), ' ') == Hexes(bs) + [""]
  {
    if bs != [] {
      NoSpace(bs[0]);
      var x := FormatHex(bs[0], 2);
      assert Codes(bs) == x + [' '] + Codes(bs[1..]);
      PiecesAfter(x, ' ', Codes(bs[1..]));
      PiecesCodes(bs[1..]);
      assert Hexes(bs) == [x] + Hexes(bs[1..]);
    }
  }

  /** The code part of a row, which starts with a space, splits into one empty piece and the
      byte numbers; the trailing empty piece is dropped. */
  lemma SplitCodes(bs: seq<Byte>)
    requires |bs| > 0
    ensures Split(" " + Codes(bs), ' ') == [""] + Hexes(bs)
  {
    var c := Codes(bs);
    var h := Hexes(bs);
    var p := [""] + h;
    PiecesCodes(bs);
    PiecesLeading(' ', c);
    assert Pieces(" " + c, ' ') == p + [""];
    NoSpace(bs[|bs| - 1]);
    assert p[|p| - 1] == h[|bs| - 1];
    assert (" " + c)[0] == ' ';
    SplitDropsLast(" " + c, ' ', p);
  }

  /** Importing the byte numbers from an address writes the bytes from that address on. */
  lemma {:induction false} ImportHexes(s: State, addr: int, bs: seq<Byte>)
    requires s.Valid()
    ensures ImportCodes(s, addr, Hexes(bs)) == (ImportWords(s, ToWord(addr), bs), true)
    decreases |bs|
  {
    if bs != [] {
      ByteField(bs[0]);
      var h := Hexes(bs);
      assert h[0] == FormatHex(bs[0], 2) && h[0] != "";
      assert h[1..] == Hexes(bs[1..]);
      var w := Write(s, ToWord(addr), bs[0]);
      assert ImportCodes(s, addr, h) == ImportCodes(w, addr + 1, Hexes(bs[1..]));
      ImportHexes(w, addr + 1, bs[1..]);
      WordSum(addr, 1);
    }
  }

  /** importRAM of one row writes its bytes from its address. */
  lemma ImportRow(s: State, a: int, bs: seq<Byte>)
    requires s.Valid() && 0 <= a < 0x10000 && |bs| > 0
    ensures ImportLine(s, Row(a, bs)) == (ImportWords(s, a, bs), true)
  {
    RowFields(a, bs);
    ImportFields(s, Row(a, bs), a, Hexes(bs));
    ImportHexes(s, a, bs);
    WordOf(a);
  }

  /** A row splits at ':' into its address, which parses back, and a part that splits at ' '
      into an empty piece and the hex pairs. */
  lemma RowFields(a: int, bs: seq<Byte>)
    requires 0 <= a < 0x10000 && |bs| > 0
    ensures var parts := Split(Row(a, bs), ':');
      |parts| >= 2 && ParseInt(parts[0], 16) == Some(a) && Split(parts[1], ' ') == [""] + Hexes(bs)
  {
    SplitRow(a, bs);
    SplitCodes(bs);
    AddressField(a);
  }

  /** importRAM of a line whose fields are known. */
  lemma ImportFields(s: State, line: string, a: int, codes: seq<string>)
    requires s.Valid()
    requires var parts := Split(line, ':');
      |parts| >= 2 && ParseInt(parts[0], 16) == Some(a) && Split(parts[1], ' ') == [""] + codes
    ensures ImportLine(s, line) == ImportCodes(s, a, codes)
  {
    assert ([""] + codes)[1..] == codes;
  }

  /** Writing x and then y from where x ends is writing x + y. */
  lemma {:induction false} ImportWordsAppend(s: State, from: Word, x: seq<int>, y: seq<int>)
    requires s.Valid()
    ensures ImportWords(s, from, x + y) == ImportWords(ImportWords(s, from, x), ToWord(from + |x|), y)
    decreases |x|
  {
    if x == [] {
      assert x + y == y;
    } else {
      assert (x + y)[0] == x[0] && (x + y)[1..] == x[1..] + y;
      var w := Write(s, from, x[0]);
      assert ImportWords(s, from, x + y) == ImportWords(w, ToWord(from + 1), x[1..] + y);
      assert ImportWords(s, from, x) == ImportWords(w, ToWord(from + 1), x[1..]);
      ImportWordsAppend(w, ToWord(from + 1), x[1..], y);
      WordSum(from + 1, |x| - 1);
    }
  }

  /** importRAM of the chunk rows, then of more rows, is writing the chunks and then importing
      the rest. */
  lemma {:induction false} ImportChunks(s: State, a: int, x: seq<Byte>, rest: seq<string>, n: nat)
    requires s.Valid() && |x| == 16 * n && 0 <= a && a + |x| <= 0x10000
    ensures ImportLines(s, Chunks(a, x) + rest) == ImportLines(ImportWords(s, ToWord(a), x), rest)
    decreases n
  {
    if x == [] {
      assert Chunks(a, x) + rest == rest;
    } else {
      var t := ImportWords(s, a, x[..16]);
      ImportChunks(t, a + 16, x[16..], rest, n - 1);
      ImportChunksStep(s, a, x, rest);
    }
  }

  /** The step of ImportChunks: importing the first row and then the others. */
  lemma ImportChunksStep(s: State, a: int, x: seq<Byte>, rest: seq<string>)
    requires s.Valid() && |x| >= 16 && 0 <= a && a + |x| <= 0x10000
    requires var t := ImportWords(s, a, x[..16]);
      ImportLines(t, Chunks(a + 16, x[16..]) + rest)
      == ImportLines(ImportWords(t, ToWord(a + 16), x[16..]), rest)
    ensures ImportLines(s, Chunks(a, x) + rest) == ImportLines(ImportWords(s, ToWord(a), x), rest)
  {
    var t := ImportWords(s, a, x[..16]);
    WordOf(a);
    calc {
      ImportLines(s, Chunks(a, x) + rest);
      { ChunksFirst(a, x, rest); }
      ImportLines(s, [Row(a, x[..16])] + (Chunks(a + 16, x[16..]) + rest));
      { ImportRowFirst(s, a, x[..16], Chunks(a + 16, x[16..]) + rest); }
      ImportLines(t, Chunks(a + 16, x[16..]) + rest);
      ImportLines(ImportWords(t, ToWord(a + 16), x[16..]), rest);
      { ImportWordsSplit(s, a, x, 16); }
      ImportLines(ImportWords(s, ToWord(a), x), rest);
    }
  }

  /** The chunk rows start with the row of the first sixteen bytes. */
  lemma ChunksFirst(a: int, x: seq<Byte>, rest: seq<string>)
    requires 0 <= a && a + |x| <= 0x10000 && |x| >= 16
    ensures Chunks(a, x) + rest == [Row(a, x[..16])] + (Chunks(a + 16, x[16..]) + rest)
  {
    assert Chunks(a, x) == [Row(a, x[..16])] + Chunks(a + 16, x[16..]);
  }

  /** importRAM of a row and then more lines writes the row's bytes and goes on. */
  lemma ImportRowFirst(s: State, a: int, bs: seq<Byte>, rest: seq<string>)
    requires s.Valid() && 0 <= a < 0x10000 && |bs| > 0
    ensures ImportLines(s, [Row(a, bs)] + rest) == ImportLines(ImportWords(s, a, bs), rest)
  {
    ImportRow(s, a, bs);
    assert ([Row(a, bs)] + rest)[1..] == rest;
  }

  /** importRAM of a single row succeeds and writes the row's bytes. */
  lemma ImportLastRow(s: State, a: int, bs: seq<Byte>)
    requires s.Valid() && 0 <= a < 0x10000 && |bs| > 0
    ensures ImportLines(s, [Row(a, bs)]) == (ImportWords(s, a, bs), true)
  {
    ImportRow(s, a, bs);
    assert [Row(a, bs)][1..] == [];
  }

  /** Where the last row of n > 0 bytes starts. */
  lemma LastRowStart(n: int)
    requires n > 0
    ensures 0 <= 16 * ((n - 1) / 16) < n
  {
  }

  /** importRAM of the listing of a non-empty program loaded at a multiple of 16 below 0x10000
      succeeds and writes the program from the entry point. */
  lemma ImportListing(s: State, entry: int, out: seq<Byte>)
    requires s.Valid() && entry % 16 == 0 && 0 <= entry && entry + |out| <= 0x10000 && |out| > 0
    ensures ImportLines(s, Disassembly(entry, out)) == (ImportWords(s, entry, out), true)
  {
    var q := (|out| - 1) / 16;
    LastRowStart(|out|);
    var x, y := out[..16 * q], out[16 * q..];
    var last := Row(entry + 16 * q, y);
    ListingRows(entry, out);
    ImportChunks(s, entry, x, [last], q);
    WordOf(entry);
    var t := ImportWords(s, entry, x);
    ImportLastRow(t, entry + 16 * q, y);
    ImportWordsSplit(s, entry, out, 16 * q);
    WordOf(entry + 16 * q);
  }

  /** Writing a prefix and then the rest from where it ends is writing the whole. */
  lemma ImportWordsSplit(s: State, from: Word, mem: seq<int>, k: int)
    requires s.Valid() && 0 <= k <= |mem|
    ensures ImportWords(ImportWords(s, from, mem[..k]), ToWord(from + k), mem[k..]) == ImportWords(s, from, mem)
  {
    assert mem[..k] + mem[k..] == mem && |mem[..k]| == k;
    ImportWordsAppend(s, from, mem[..k], mem[k..]);
  }

  /** Writing mem from an address with room for it sets exactly those cells. */
  lemma {:induction false} ImportWordsRam(s: State, from: Word, mem: seq<Byte>)
    requires s.Valid() && from + |mem| <= MemSize
    ensures var t := ImportWords(s, from, mem);
      forall c :: 0 <= c < MemSize ==>
        t.ram[c] == if from <= c < from + |mem| then mem[c - from] else s.ram[c]
    decreases |mem|
  {
    if mem != [] {
      var w := Write(s, from, mem[0]);
      WriteEffect(s, from, mem[0]);
      assert ToByte(mem[0] as int) == mem[0];
      var t := ImportWords(s, from, mem);
      assert t == ImportWords(w, ToWord(from + 1), mem[1..]);
      if |mem| > 1 {
        WordOf(from + 1);
        ImportWordsRam(w, from + 1, mem[1..]);
      }
    }
  }

  /** The round trip: importRAM of the listing of a non-empty program loaded at a multiple of
      16 below 0x10000 succeeds, puts byte i of the program at address entry + i, and leaves
      every other cell as it was; the listing of an empty program cannot be imported. */
  lemma ListingLoads(s: State, entry: int, out: seq<Byte>)
    requires s.Valid() && entry % 16 == 0 && 0 <= entry && entry + |out| <= 0x10000
    ensures var (t, ok) := ImportLines(s, Disassembly(entry, out));
      (ok <==> |out| > 0)
      && forall c :: 0 <= c < MemSize ==>
           t.ram[c] == if entry <= c < entry + |out| then out[c - entry] else s.ram[c]
  {
    if |out| == 0 {
      EmptyListing(entry);
    } else {
      ImportListing(s, entry, out);
      ImportWordsRam(s, entry, out);
    }
  }
}
