/** Why the two passes of the assembler agree. The sizing pass writes a placeholder ("$00" or
    "$0000") where the final pass writes a label's address; as long as each line names at most
    one label, once, as its operand, the two texts differ only in hex digits of the same width,
    so they take the same number of bytes, every label's offset is the address its line's bytes
    get, and a branch or jump to a label lands on it. */
module Resolution {
  import opened Wrappers
  import opened Text
  import opened Bits
  import opened Encoder
  import opened Assembler

  // ================================================================ label hygiene

  /** A label name the passes can tell from a hex operand: a word with a character that is not
      a hex digit. */
  predicate LabelLike(m: string)
  {
    IsWord(m) && !AllHex(m)
  }

  /** A line pre + name + post whose only label reference is `name`, once, as the operand
      token after the mnemonic, before any '$'. */
  predicate RefersOnce(pre: string, name: string, post: string, names: seq<string>)
  {
    name in names && Separated(pre, post) && |RemoveSpaces(pre)| >= 3 && '$' !in pre
    && !Occurs(pre, name) && !Occurs(post, name)
    && forall m | m in names :: LabelLike(m) && !ContainsWord(pre, m) && !ContainsWord(post, m)
  }

  /** A line that names no label, or names one as RefersOnce describes. */
  predicate Hygienic(line: string, names: seq<string>)
  {
    (forall m | m in names :: !ContainsWord(line, m))
    || exists i, j :: 0 <= i <= j <= |line| && RefersOnce(line[..i], line[i..j], line[j..], names)
  }

  // ================================================================ the label loops on one line

  /** A key is found exactly when it is among the keys, and then with a value stored for it. */
  lemma {:induction false} GetKeys<V>(t: Table<V>, k: string)
    ensures Get(t, k).Some? <==> k in Keys(t)
    ensures Get(t, k).Some? ==> (k, Get(t, k).value) in t
  {
    if t != [] {
      GetKeys(t[1..], k);
      assert Keys(t) == [t[0].0] + Keys(t[1..]);
    }
  }

  /** The sizing pass leaves a line without label references as it is. */
  lemma {:induction false} PlaceholdersNone(line: string, names: seq<string>)
    requires forall m | m in names :: !ContainsWord(line, m)
    ensures Placeholders(line, names) == Some(line)
    decreases |names|
  {
    if names != [] {
      assert names[0] in names;
      PlaceholdersNone(line, names[1..]);
    }
  }

  /** So does the final pass. */
  lemma {:induction false} ResolveNone(line: string, labels: Table<int>, entry: int, byteCount: int)
    requires forall e | e in labels :: !ContainsWord(line, e.0)
    ensures Resolve(line, labels, entry, byteCount) == Some(line)
    decreases |labels|
  {
    if labels != [] {
      assert labels[0] in labels;
      ResolveNone(line, labels[1..], entry, byteCount);
    }
  }

  /** Once the reference is replaced by a hex token, no label name is left in the line. */
  lemma TokenLeavesNone(pre: string, y: string, post: string, all: seq<string>, m: string)
    requires IsToken(y) && y[0] == '$' && AllHex(y[1..])
    requires forall m' | m' in all :: LabelLike(m') && !ContainsWord(pre, m') && !ContainsWord(post, m')
    requires Separated(pre, post) && m in all
    ensures !ContainsWord(pre + y + post, m)
  {
    assert LabelLike(m);
    assert m != TokenWord(y);
    WordAroundToken(pre, y, post, m);
  }

  /** Another label name is not found in a line that refers to `name` alone. */
  lemma OtherNameAbsent(pre: string, name: string, post: string, all: seq<string>, m: string)
    requires RefersOnce(pre, name, post, all) && m in all && m != name
    ensures !ContainsWord(pre + name + post, m)
  {
    assert LabelLike(name) && LabelLike(m);
    assert name[0] != '$';
    WordAroundToken(pre, name, post, m);
  }

  /** The sizing pass replaces the one label reference by the placeholder for the line's
      mnemonic, and fails where getBytes fails on the line. */
  lemma {:induction false} PlaceholdersRefer(pre: string, name: string, post: string,
                                             names: seq<string>, all: seq<string>)
    requires RefersOnce(pre, name, post, all) && forall m | m in names :: m in all
    ensures var line := pre + name + post;
      Placeholders(line, names) ==
        if name !in names then Some(line)
        else match GetBytes(line)
          case Data(d) => Some(pre + Placeholder(d.name) + post)
          case _ => None
    decreases |names|
  {
    var line := pre + name + post;
    if names != [] {
      assert names[0] in all;
      if names[0] == name {
        assert LabelLike(name);
        WordBetween(pre, name, post);
        if GetBytes(line).Data? {
          var y := Placeholder(GetBytes(line).data.name);
          ReplaceOnce(pre, name, post, y);
          forall m | m in names[1..] ensures !ContainsWord(pre + y + post, m) {
            TokenLeavesNone(pre, y, post, all, m);
          }
          PlaceholdersNone(pre + y + post, names[1..]);
        }
      } else {
        OtherNameAbsent(pre, name, post, all, names[0]);
        PlaceholdersRefer(pre, name, post, names[1..], all);
      }
    }
  }

  /** The final pass replaces the one label reference by the label's address, and fails where
      getBytes fails on the line or the branch is out of range. */
  lemma {:induction false} ResolveRefer(pre: string, name: string, post: string,
                                        labels: Table<int>, all: seq<string>, entry: int, byteCount: int)
    requires RefersOnce(pre, name, post, all) && forall e | e in labels :: e.0 in all
    ensures var line := pre + name + post;
      Resolve(line, labels, entry, byteCount) ==
        match Get(labels, name)
        case None => Some(line)
        case Some(v) =>
          match GetBytes(line)
          case Data(d) =>
            (match Address(IsJump(d.name), entry, v, byteCount)
             case None => None
             case Some(a) => Some(pre + a + post))
          case _ => None
    decreases |labels|
  {
    var line := pre + name + post;
    if labels != [] {
      assert labels[0] in labels;
      if labels[0].0 == name {
        assert LabelLike(name);
        WordBetween(pre, name, post);
        if GetBytes(line).Data? {
          var d := GetBytes(line).data;
          match Address(IsJump(d.name), entry, labels[0].1, byteCount)
          case None =>
          case Some(a) =>
            AddressToken(IsJump(d.name), entry, labels[0].1, byteCount);
            ReplaceOnce(pre, name, post, a);
            forall e | e in labels[1..] ensures !ContainsWord(pre + a + post, e.0) {
              assert e in labels;
              TokenLeavesNone(pre, a, post, all, e.0);
            }
            ResolveNone(pre + a + post, labels[1..], entry, byteCount);
        }
      } else {
        OtherNameAbsent(pre, name, post, all, labels[0].0);
        forall e | e in labels[1..] ensures e.0 in all {
          assert e in labels;
        }
        ResolveRefer(pre, name, post, labels[1..], all, entry, byteCount);
      }
    }
  }

  /** An address is a '$' and hex digits. */
  lemma AddressToken(isJump: bool, entry: int, offset: int, byteCount: int)
    requires Address(isJump, entry, offset, byteCount).Some?
    ensures var a := Address(isJump, entry, offset, byteCount).value;
      IsToken(a) && a[0] == '$' && AllHex(a[1..])
  {
    var a := Address(isJump, entry, offset, byteCount).value;
    var h := if isJump then FormatHex(Int32(entry + offset), 4)
             else FormatHex(ToByte(offset - (byteCount + 2)), 2);
    if isJump {
      FormatHexDigits(Int32(entry + offset), 4);
    } else {
      FormatHexDigits(ToByte(offset - (byteCount + 2)), 2);
    }
    assert a == "$" + h && a[1..] == h;
  }

  // ================================================================ one line, both passes

  /** Every jump to a label stays within the 64K address space. */
  predicate JumpsFit(labels: Table<int>, entry: int)
  {
    forall e | e in labels :: 0 <= entry + e.1 < 0x10000
  }

  /** Two outcomes of assembling a line: both fail, or both give the same number of bytes. */
  predicate SameSize(a: Option<seq<Byte>>, b: Option<seq<Byte>>)
  {
    a.Some? == b.Some? && (a.Some? ==> |a.value| == |b.value|)
  }

  /** Every key of a table is among its keys. */
  lemma KeysOf<V>(t: Table<V>)
    ensures forall e | e in t :: e.0 in Keys(t)
  {
    forall e | e in t ensures e.0 in Keys(t) {
      var i :| 0 <= i < |t| && t[i] == e;
      assert Keys(t)[i] == e.0;
    }
  }

  /** The placeholders of a jump and of a branch are five and three characters wide. */
  lemma PlaceholderWidths()
    ensures |Placeholder("JMP")| == 5 && |Placeholder("BNE")| == 3
  {
    assert Upper("BNE")[0] == 'B' && Upper("JMP")[0] == 'J' && Upper("JSR")[1] == 'S';
    assert Upper("BNE") != Upper("JMP") && Upper("BNE") != Upper("JSR");
  }

  /** The address the final pass writes for a label is hex digits as wide as the placeholder. */
  lemma AddressWidth(isJump: bool, entry: int, offset: int, byteCount: int)
    requires Address(isJump, entry, offset, byteCount).Some?
    requires isJump ==> 0 <= entry + offset < 0x10000
    ensures var a := Address(isJump, entry, offset, byteCount).value;
      |a| == |Placeholder(if isJump then "JMP" else "BNE")| && a[0] == '$' && AllHex(a[1..])
  {
    AddressToken(isJump, entry, offset, byteCount);
    PlaceholderWidths();
    var a := Address(isJump, entry, offset, byteCount).value;
    if isJump {
      var v := Int32(entry + offset);
      assert Pow16(4) == 0x10000;
      FormatHexWidth(v, 4);
      assert a == "$" + FormatHex(v, 4);
    } else {
      var v := ToByte(offset - (byteCount + 2));
      assert Pow16(2) == 0x100;
      FormatHexWidth(v, 2);
      assert a == "$" + FormatHex(v, 2);
    }
  }

  /** Where the final pass resolves a line, the sizing pass placed it, and both give the line
      the same number of bytes. */
  predicate PassesAgree(line: string, labels: Table<int>, entry: int, byteCount: int)
  {
    var r := Resolve(line, labels, entry, byteCount);
    var p := Placeholders(line, Keys(labels));
    r.Some? ==> p.Some? && SameSize(LineBytes(p.value), LineBytes(r.value))
  }

  /** On a line that refers to one label, the final pass succeeds only where the sizing pass
      does, and the line then takes as many bytes in both. */
  lemma ReferenceSizes(line: string, i: nat, j: nat, labels: Table<int>, entry: int, byteCount: int)
    requires i <= j <= |line| && RefersOnce(line[..i], line[i..j], line[j..], Keys(labels))
    requires JumpsFit(labels, entry)
    ensures PassesAgree(line, labels, entry, byteCount)
  {
    var pre, name, post := line[..i], line[i..j], line[j..];
    assert line == pre + name + post;
    var names := Keys(labels);
    KeysOf(labels);
    PlaceholdersRefer(pre, name, post, names, names);
    ResolveRefer(pre, name, post, labels, names, entry, byteCount);
    GetKeys(labels, name);
    var r := Resolve(line, labels, entry, byteCount);
    if r.Some? {
      var d := GetBytes(line).data;
      var v := Get(labels, name).value;
      var jump := IsJump(d.name);
      var a := Address(jump, entry, v, byteCount).value;
      var y := Placeholder(d.name);
      AddressWidth(jump, entry, v, byteCount);
      TokenSizes(pre, y, a, post);
    }
  }

  /** Two lines that differ in one hex token of the same width take as many bytes. */
  lemma TokenSizes(pre: string, y: string, a: string, post: string)
    requires |y| == |a| && y != [] && y[0] == '$' && a[0] == '$' && AllHex(y[1..]) && AllHex(a[1..])
    requires |RemoveSpaces(pre)| >= 3
    ensures SameSize(LineBytes(pre + y + post), LineBytes(pre + a + post))
  {
    GetBytesHexVariant(pre, y[1..], a[1..], post);
    DollarToken(pre, y, post);
    DollarToken(pre, a, post);
  }

  /** A line without label references is the same text in both passes. */
  lemma PlainSizes(line: string, labels: Table<int>, entry: int, byteCount: int)
    requires forall m | m in Keys(labels) :: !ContainsWord(line, m)
    ensures Resolve(line, labels, entry, byteCount) == Some(line)
    ensures Placeholders(line, Keys(labels)) == Some(line)
    ensures PassesAgree(line, labels, entry, byteCount)
  {
    KeysOf(labels);
    PlaceholdersNone(line, Keys(labels));
    ResolveNone(line, labels, entry, byteCount);
  }

  /** So it is on every hygienic line. */
  lemma CodeSizes(line: string, labels: Table<int>, entry: int, byteCount: int)
    requires Hygienic(line, Keys(labels)) && JumpsFit(labels, entry)
    ensures PassesAgree(line, labels, entry, byteCount)
  {
    var names := Keys(labels);
    if forall m | m in names :: !ContainsWord(line, m) {
      PlainSizes(line, labels, entry, byteCount);
    } else {
      var i, j :| 0 <= i <= j <= |line| && RefersOnce(line[..i], line[i..j], line[j..], names);
      ReferenceSizes(line, i, j, labels, entry, byteCount);
    }
  }

  // ================================================================ the whole passes

  /** After n lines, the sizing pass has stored each of them with its variables substituted,
      left the others alone and kept the label names. */
  lemma {:induction false} SizedState(init: Sizing, sizes: seq<LineSize>, n: nat)
    requires n <= |init.lines| && n <= |sizes| && SizeUpTo(init, sizes, n).Some?
    ensures var s := SizeUpTo(init, sizes, n).value;
      (forall j :: 0 <= j < n ==> s.lines[j] == sizes[j].stored)
      && (forall j :: n <= j < |init.lines| ==> s.lines[j] == init.lines[j])
      && Keys(s.labels) == Keys(init.labels)
  {
    if n > 0 {
      SizedState(init, sizes, n - 1);
      var s := SizeUpTo(init, sizes, n - 1).value;
      var o := sizes[n - 1];
      if o.declares.Some? {
        ReplaceKeys(s.labels, o.declares.value, s.byteCount);
      }
    }
  }

  /** A line takes as many bytes in the final pass as in the sizing pass. */
  lemma LineAgrees(o: LineSize, line: string, vars: Table<string>, labels: Table<int>,
                   entry: int, byteCount: int)
    requires o == SizeOf(line, vars, Keys(labels)) && o.size.Some?
    requires Hygienic(Code(o.stored), Keys(labels)) && JumpsFit(labels, entry)
    requires LineEmit(o.stored, labels, entry, byteCount).Some?
    ensures o.size.value == |LineEmit(o.stored, labels, entry, byteCount).value|
  {
    if !OnlyLabel(o.stored) {
      CodeSizes(Code(o.stored), labels, entry, byteCount);
    }
  }

  /** Both passes get through the first n lines and have counted the same number of bytes. */
  predicate CountsMatch(init: Sizing, sizes: seq<LineSize>, emit: (nat, int) -> Option<seq<Byte>>, n: nat)
    requires n <= |init.lines| && n <= |sizes|
  {
    SizeUpTo(init, sizes, n).Some? && EmitUpTo(emit, n).Some?
    && SizeUpTo(init, sizes, n).value.byteCount == EmitUpTo(emit, n).value.byteCount
  }

  /** Where both passes run to the end over hygienic lines, they have counted the same number
      of bytes before every line. */
  lemma CountsAgree(f: Front, st: Sizing, n: nat, init: Sizing,
                                       sizes: seq<LineSize>, emit: (nat, int) -> Option<seq<Byte>>)
    requires Sized(f) == Some(st) && Emitted(st.lines, st.labels, f.entry).Some?
    requires forall j :: 0 <= j < |st.lines| ==> Hygienic(Code(st.lines[j]), Keys(st.labels))
    requires JumpsFit(st.labels, f.entry) && n <= |f.lines|
    requires init == Sizing(f.lines, f.labels, 0) && sizes == Sizes(f.lines, f.vars, Keys(f.labels))
    requires emit == LineEmits(st.lines, st.labels, f.entry)
    ensures CountsMatch(init, sizes, emit, n)
  {
    forall k | 0 <= k < n && CountsMatch(init, sizes, emit, k)
      ensures CountsMatch(init, sizes, emit, k + 1)
    {
      PrefixesSucceed(f, st, k + 1);
      CountStep(f, st, k + 1, init, sizes, emit);
    }
    CountsInduct(init, sizes, emit, n);
  }

  /** Counts that match before the first line, and keep matching from each line to the next,
      match after the first n lines. */
  lemma {:induction false} CountsInduct(init: Sizing, sizes: seq<LineSize>,
                                        emit: (nat, int) -> Option<seq<Byte>>, n: nat)
    requires n <= |init.lines| && n <= |sizes| && init.byteCount == 0
    requires forall k :: 0 <= k < n && CountsMatch(init, sizes, emit, k) ==> CountsMatch(init, sizes, emit, k + 1)
    ensures CountsMatch(init, sizes, emit, n)
    decreases n
  {
    if n > 0 {
      CountsInduct(init, sizes, emit, n - 1);
    }
  }

  /** Line n - 1 adds as many bytes to both counts. */
  lemma CountStep(f: Front, st: Sizing, n: nat, init: Sizing,
                  sizes: seq<LineSize>, emit: (nat, int) -> Option<seq<Byte>>)
    requires Sized(f) == Some(st) && Emitted(st.lines, st.labels, f.entry).Some?
    requires forall j :: 0 <= j < |st.lines| ==> Hygienic(Code(st.lines[j]), Keys(st.labels))
    requires JumpsFit(st.labels, f.entry) && 0 < n <= |f.lines|
    requires init == Sizing(f.lines, f.labels, 0) && sizes == Sizes(f.lines, f.vars, Keys(f.labels))
    requires emit == LineEmits(st.lines, st.labels, f.entry)
    requires CountsMatch(init, sizes, emit, n - 1)
    requires SizeUpTo(init, sizes, n).Some? && EmitUpTo(emit, n).Some?
    ensures CountsMatch(init, sizes, emit, n)
  {
    var s := SizeUpTo(init, sizes, n - 1).value;
    var c := EmitUpTo(emit, n - 1).value.byteCount;
    var o := sizes[n - 1];
    SizedState(init, sizes, |f.lines|);
    assert o.stored == st.lines[n - 1];
    assert SizeUpTo(init, sizes, n) == SizeStep(s, n - 1, o);
    assert emit(n - 1, c) == LineEmit(st.lines[n - 1], st.labels, f.entry, c);
    LineAgrees(o, f.lines[n - 1], f.vars, st.labels, f.entry, c);
  }

  /** Where both passes run to the end, they succeed over every prefix of the lines. */
  lemma PrefixesSucceed(f: Front, st: Sizing, n: nat)
    requires Sized(f) == Some(st) && Emitted(st.lines, st.labels, f.entry).Some? && n <= |f.lines|
    ensures SizeUpTo(Sizing(f.lines, f.labels, 0), Sizes(f.lines, f.vars, Keys(f.labels)), n).Some?
    ensures EmitUpTo(LineEmits(st.lines, st.labels, f.entry), n).Some?
  {
    var init := Sizing(f.lines, f.labels, 0);
    var sizes := Sizes(f.lines, f.vars, Keys(f.labels));
    var emit := LineEmits(st.lines, st.labels, f.entry);
    if SizeUpTo(init, sizes, n).None? {
      SizeFails(init, sizes, n, |f.lines|);
    }
    if EmitUpTo(emit, n).None? {
      EmitFails(emit, n, |st.lines|);
    }
  }

  /** A label keeps the count of bytes before the last line that declares it. */
  lemma {:induction false} LabelOffset(init: Sizing, sizes: seq<LineSize>, name: string, j: nat, n: nat)
    requires j < n <= |init.lines| && n <= |sizes| && SizeUpTo(init, sizes, n).Some?
    requires Get(init.labels, name).Some? && sizes[j].declares == Some(name)
    requires forall k :: j < k < n ==> sizes[k].declares != Some(name)
    ensures SizeUpTo(init, sizes, j).Some?
    ensures Get(SizeUpTo(init, sizes, n).value.labels, name) == Some(SizeUpTo(init, sizes, j).value.byteCount)
    decreases n
  {
    var s := SizeUpTo(init, sizes, n - 1).value;
    var o := sizes[n - 1];
    if n - 1 == j {
      SizedState(init, sizes, j);
      GetKeys(init.labels, name);
      GetKeys(s.labels, name);
      ReplaceGet(s.labels, name, s.byteCount, name);
    } else {
      LabelOffset(init, sizes, name, j, n - 1);
      if o.declares.Some? {
        ReplaceGet(s.labels, o.declares.value, s.byteCount, name);
      }
    }
  }

  /** The bytes of the first j lines begin the bytes of the first n. */
  lemma {:induction false} EmitPrefix(emit: (nat, int) -> Option<seq<Byte>>, j: nat, n: nat)
    requires j <= n && EmitUpTo(emit, n).Some?
    ensures EmitUpTo(emit, j).Some?
    ensures EmitUpTo(emit, j).value.bytes <= EmitUpTo(emit, n).value.bytes
    decreases n
  {
    if EmitUpTo(emit, j).None? {
      EmitFails(emit, j, n);
    }
    if j < n {
      EmitPrefix(emit, j, n - 1);
    }
  }

  /** Line j's bytes follow those of the lines before it in the output. */
  lemma LineFollows(emit: (nat, int) -> Option<seq<Byte>>, j: nat, n: nat)
    requires j < n && EmitUpTo(emit, n).Some?
    ensures EmitUpTo(emit, j).Some?
    ensures var before := EmitUpTo(emit, j).value.bytes;
      emit(j, |before|).Some? && before + emit(j, |before|).value <= EmitUpTo(emit, n).value.bytes
  {
    EmitPrefix(emit, j + 1, n);
  }

  /** A label's offset is the count of bytes the final pass emits before the line that
      declares it last. */
  lemma LabelCount(f: Front, st: Sizing, name: string, j: nat)
    requires Sized(f) == Some(st) && Emitted(st.lines, st.labels, f.entry).Some?
    requires forall k :: 0 <= k < |st.lines| ==> Hygienic(Code(st.lines[k]), Keys(st.labels))
    requires JumpsFit(st.labels, f.entry)
    requires j < |f.lines| && Get(f.labels, name).Some?
    requires Sizes(f.lines, f.vars, Keys(f.labels))[j].declares == Some(name)
    requires forall k :: j < k < |f.lines| ==> Sizes(f.lines, f.vars, Keys(f.labels))[k].declares != Some(name)
    ensures EmitUpTo(LineEmits(st.lines, st.labels, f.entry), j).Some?
    ensures Get(st.labels, name) == Some(EmitUpTo(LineEmits(st.lines, st.labels, f.entry), j).value.byteCount)
  {
    LabelOffset(Sizing(f.lines, f.labels, 0), Sizes(f.lines, f.vars, Keys(f.labels)), name, j, |f.lines|);
    CountsAgree(f, st, j, Sizing(f.lines, f.labels, 0), Sizes(f.lines, f.vars, Keys(f.labels)),
                LineEmits(st.lines, st.labels, f.entry));
  }

  /** The offset the assembler gives a label is where the final pass puts the bytes of the
      line that declares it last: the output starts with exactly that many bytes from the
      lines before, followed by that line's own bytes. */
  lemma LabelAddress(f: Front, st: Sizing, out: Output, name: string, j: nat)
    requires Sized(f) == Some(st) && Emitted(st.lines, st.labels, f.entry) == Some(out)
    requires forall k :: 0 <= k < |st.lines| ==> Hygienic(Code(st.lines[k]), Keys(st.labels))
    requires JumpsFit(st.labels, f.entry)
    requires j < |f.lines| && Get(f.labels, name).Some?
    requires Sizes(f.lines, f.vars, Keys(f.labels))[j].declares == Some(name)
    requires forall k :: j < k < |f.lines| ==> Sizes(f.lines, f.vars, Keys(f.labels))[k].declares != Some(name)
    ensures EmitUpTo(LineEmits(st.lines, st.labels, f.entry), j).Some?
    ensures var before := EmitUpTo(LineEmits(st.lines, st.labels, f.entry), j).value.bytes;
      LineEmit(st.lines[j], st.labels, f.entry, |before|).Some?
    ensures var before := EmitUpTo(LineEmits(st.lines, st.labels, f.entry), j).value.bytes;
      var line := LineEmit(st.lines[j], st.labels, f.entry, |before|).value;
      Get(st.labels, name) == Some(|before|) && before + line <= out.bytes
  {
    var emit := LineEmits(st.lines, st.labels, f.entry);
    LabelCount(f, st, name, j);
    SizedState(Sizing(f.lines, f.labels, 0), Sizes(f.lines, f.vars, Keys(f.labels)), |f.lines|);
    LineFollows(emit, j, |st.lines|);
    var before := EmitUpTo(emit, j).value.bytes;
    assert emit(j, |before|) == LineEmit(st.lines[j], st.labels, f.entry, |before|);
  }

  // ================================================================ the operand a reference becomes

  /** The digits of an address parse back to the jump target, or to the branch displacement as
      a byte; a branch address exists only for displacements -127..128. */
  lemma AddressParses(isJump: bool, entry: int, offset: int, byteCount: int)
    requires Address(isJump, entry, offset, byteCount).Some?
    requires isJump ==> 0 <= entry + offset < 0x10000
    ensures var a := Address(isJump, entry, offset, byteCount).value;
      |a| == (if isJump then 5 else 3)
      && ParseInt(a[1..], 16)
         == Some(if isJump then entry + offset else ToByte(offset - (byteCount + 2)))
    ensures !isJump ==> -127 <= offset - (byteCount + 2) <= 128
    ensures !isJump ==> var offs := offset - (byteCount + 2);
      Signed(ToByte(offs)) == if offs == 128 then -128 else offs
  {
    AddressWidth(isJump, entry, offset, byteCount);
    var a := Address(isJump, entry, offset, byteCount).value;
    if isJump {
      assert a[1..] == FormatHex(entry + offset, 4);
      FormatHexParses(entry + offset, 4);
    } else {
      assert a[1..] == FormatHex(ToByte(offset - (byteCount + 2)), 2);
      FormatHexParses(ToByte(offset - (byteCount + 2)), 2);
      SignedToByte(offset - (byteCount + 2));
    }
  }

  /** The operand bytes of a line with a hex token after the mnemonic are that token's value. */
  lemma TokenOperand(pre: string, a: string, post: string)
    requires |a| >= 3 && a[0] == '$' && AllHex(a[1..]) && |RemoveSpaces(pre)| >= 3 && '$' !in pre
    requires LineBytes(pre + a + post).Some?
    ensures var b := LineBytes(pre + a + post).value;
      (|b| == 2 ==> ParseInt(a[1..3], 16) == Some(b[1]))
      && (|b| == 3 && |a| >= 5 ==> ParseInt(a[1..5], 16) == Some(b[1] as int + 0x100 * b[2] as int))
  {
    assert pre + a + post == pre + "$" + a[1..] + post;
    assert a[1..][..2] == a[1..3];
    assert |a| >= 5 ==> a[1..][..4] == a[1..5];
    HexOperand(pre, a[1..], post);
  }

  /** The label reference of a line, resolved: its value and the address text it becomes. */
  lemma ResolvedText(line: string, i: nat, j: nat, labels: Table<int>, entry: int, byteCount: int)
    requires i <= j <= |line| && RefersOnce(line[..i], line[i..j], line[j..], Keys(labels))
    requires JumpsFit(labels, entry) && Resolve(line, labels, entry, byteCount).Some?
    ensures Get(labels, line[i..j]).Some? && GetBytes(line).Data?
    ensures var v := Get(labels, line[i..j]).value;
      var a := Address(IsJump(GetBytes(line).data.name), entry, v, byteCount);
      a.Some? && Resolve(line, labels, entry, byteCount).value == line[..i] + a.value + line[j..]
      && |a.value| >= 3 && a.value[0] == '$' && AllHex(a.value[1..])
      && (IsJump(GetBytes(line).data.name) ==> |a.value| == 5)
  {
    var pre, name, post := line[..i], line[i..j], line[j..];
    assert line == pre + name + post;
    KeysOf(labels);
    ResolveRefer(pre, name, post, labels, Keys(labels), entry, byteCount);
    GetKeys(labels, name);
    var v := Get(labels, name).value;
    AddressWidth(IsJump(GetBytes(line).data.name), entry, v, byteCount);
  }

  /** A branch to a label is resolved to the label's displacement from the end of the branch,
      which is within -127..128, stored as a byte: read back signed, as the processor does, it
      is that displacement, except that 128 reads back as -128. */
  lemma BranchOperand(line: string, i: nat, j: nat, labels: Table<int>, entry: int, byteCount: int,
                      r: string, b: seq<Byte>)
    requires i <= j <= |line| && RefersOnce(line[..i], line[i..j], line[j..], Keys(labels))
    requires JumpsFit(labels, entry) && Resolve(line, labels, entry, byteCount) == Some(r)
    requires GetBytes(line).Data? && !IsJump(GetBytes(line).data.name)
    requires LineBytes(r) == Some(b) && |b| == 2
    ensures Get(labels, line[i..j]).Some?
    ensures var offs := Get(labels, line[i..j]).value - (byteCount + 2);
      -127 <= offs <= 128 && Signed(b[1]) == if offs == 128 then -128 else offs
  {
    ResolvedText(line, i, j, labels, entry, byteCount);
    var v := Get(labels, line[i..j]).value;
    var a := Address(false, entry, v, byteCount).value;
    AddressParses(false, entry, v, byteCount);
    assert a[1..3] == a[1..];
    TokenOperand(line[..i], a, line[j..]);
  }

  /** A JMP or JSR to a label is resolved to the label's address, entry point plus offset. */
  lemma JumpOperand(line: string, i: nat, j: nat, labels: Table<int>, entry: int, byteCount: int,
                    r: string, b: seq<Byte>)
    requires i <= j <= |line| && RefersOnce(line[..i], line[i..j], line[j..], Keys(labels))
    requires JumpsFit(labels, entry) && Resolve(line, labels, entry, byteCount) == Some(r)
    requires GetBytes(line).Data? && IsJump(GetBytes(line).data.name)
    requires LineBytes(r) == Some(b) && |b| == 3
    ensures Get(labels, line[i..j]).Some?
    ensures b[1] as int + 0x100 * b[2] as int == entry + Get(labels, line[i..j]).value
  {
    ResolvedText(line, i, j, labels, entry, byteCount);
    var v := Get(labels, line[i..j]).value;
    GetKeys(labels, line[i..j]);
    var a := Address(true, entry, v, byteCount).value;
    AddressParses(true, entry, v, byteCount);
    assert a[1..5] == a[1..];
    TokenOperand(line[..i], a, line[j..]);
  }
}
