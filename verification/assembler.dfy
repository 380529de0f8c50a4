/** Assemble6502.assemble(String[]): the two-pass assembler. The source lines are filtered,
    the directives (`.entry $hhhh`, `define name value`) and the label names are collected by a
    backward scan, a sizing pass substitutes the variables and counts each line's bytes with
    placeholder operands for label references, recording every label's offset, and a final
    pass replaces each label reference by its address (JMP/JSR) or branch displacement and
    emits the bytes. The bytes are then listed sixteen to a row.

    Each pass is a method whose loop is proved against a specification function; Assembled is
    the whole assembler as a function and Assemble the method that runs the passes in turn. */
module Assembler {
  import opened Wrappers
  import opened Text
  import opened Bits
  import opened Encoder

  // ================================================================ hash maps

  /** A Java HashMap as the assembler's loops walk it: its entries in iteration order, each
      key once. The model takes the iteration order to be the order of first insertion. */
  type Table<V> = seq<(string, V)>

  function Keys<V>(t: Table<V>): (ks: seq<string>)
    ensures |ks| == |t| && forall i :: 0 <= i < |t| ==> ks[i] == t[i].0
  {
    seq(|t|, i requires 0 <= i < |t| => t[i].0)
  }

  /** `map.get(k)`: the value of the entry with key k, if any. */
  function Get<V>(t: Table<V>, k: string): Option<V>
  {
    if t == [] then None else if t[0].0 == k then Some(t[0].1) else Get(t[1..], k)
  }

  /** `map.put(k, v)`: the entry for k gets v, or a new entry (k, v) joins the iteration
      order at the end. */
  function Put<V>(t: Table<V>, k: string, v: V): (r: Table<V>)
    ensures |r| == |t| || |r| == |t| + 1
  {
    if t == [] then [(k, v)]
    else if t[0].0 == k then [(k, v)] + t[1..]
    else [t[0]] + Put(t[1..], k, v)
  }

  /** After put, k maps to v and every other key keeps its value. */
  lemma {:induction false} PutGet<V>(t: Table<V>, k: string, v: V, k': string)
    ensures Get(Put(t, k, v), k') == if k' == k then Some(v) else Get(t, k')
  {
    if t != [] && t[0].0 != k {
      PutGet(t[1..], k, v, k');
    }
  }

  /** put keeps the iteration order of the keys, and a new key comes last. */
  lemma {:induction false} PutKeys<V>(t: Table<V>, k: string, v: V)
    ensures Get(t, k).Some? ==> Keys(Put(t, k, v)) == Keys(t)
    ensures Get(t, k).None? ==> Keys(Put(t, k, v)) == Keys(t) + [k]
  {
    if t != [] && t[0].0 != k {
      PutKeys(t[1..], k, v);
      assert Put(t, k, v) == [t[0]] + Put(t[1..], k, v);
      assert Keys(t) == [t[0].0] + Keys(t[1..]);
      assert Keys(Put(t, k, v)) == [t[0].0] + Keys(Put(t[1..], k, v));
    } else if t != [] {
      assert Keys(Put(t, k, v)) == [k] + Keys(t[1..]);
      assert Keys(t) == [k] + Keys(t[1..]);
    }
  }

  /** `map.replace(k, v)`: only a key already present gets the new value; the keys and their
      order do not change. */
  function ReplaceValue<V>(t: Table<V>, k: string, v: V): (r: Table<V>)
    ensures |r| == |t|
  {
    if t == [] then []
    else if t[0].0 == k then [(k, v)] + t[1..]
    else [t[0]] + ReplaceValue(t[1..], k, v)
  }

  /** After replace, a key that was present maps to v, an absent one stays absent, and every
      other key keeps its value. */
  lemma {:induction false} ReplaceGet<V>(t: Table<V>, k: string, v: V, k': string)
    ensures Get(ReplaceValue(t, k, v), k') ==
            if k' != k then Get(t, k') else if Get(t, k).Some? then Some(v) else None
  {
    if t != [] && t[0].0 != k {
      ReplaceGet(t[1..], k, v, k');
    }
  }

  /** replace changes no key and no position. */
  lemma {:induction false} ReplaceKeys<V>(t: Table<V>, k: string, v: V)
    ensures Keys(ReplaceValue(t, k, v)) == Keys(t)
  {
    if t != [] {
      ReplaceKeys(t[1..], k, v);
      assert Keys(ReplaceValue(t, k, v)) == [t[0].0] + Keys(ReplaceValue(t[1..], k, v));
      assert Keys(t) == [t[0].0] + Keys(t[1..]);
    }
  }

  // ================================================================ the filter

  /** One source line through the filter: trimmed, dropped when shorter than three characters
      or when it starts with ';', otherwise cut at its first ';'. */
  function FilterLine(line: string): (r: Option<string>)
    ensures var t := Trim(line);
      (r.None? <==> |t| < 3 || t[0] == ';')
      && (r.Some? ==> 0 < |r.value| <= |t| && r.value == t[..|r.value|] && ';' !in r.value
                      && (|r.value| < |t| ==> t[|r.value|] == ';'))
  {
    var t := Trim(line);
    if |t| < 3 then None
    else
      var c := IndexOf(t, ';');
      if c == 0 then None else if c > 0 then Some(t[..c]) else Some(t)
  }

  function Kept(line: string): seq<string>
  {
    match FilterLine(line)
    case None => []
    case Some(l) => [l]
  }

  /** The lines the filter keeps, in order. */
  function Filtered(data: seq<string>): (r: seq<string>)
    ensures |r| <= |data|
    ensures forall j :: 0 <= j < |r| ==> |r[j]| > 0 && ';' !in r[j]
  {
    if data == [] then [] else Filtered(data[..|data| - 1]) + Kept(data[|data| - 1])
  }

  method Filter(data: seq<string>) returns (fData: seq<string>)
    ensures fData == Filtered(data)
  {
    fData := [];
    for i := 0 to |data|
      invariant fData == Filtered(data[..i])
    {
      assert data[..i + 1][..i] == data[..i];
      var line := Trim(data[i]);
      if |line| < 3 {
        continue;
      }
      var commentIndex := IndexOf(line, ';');
      if commentIndex == 0 {
        continue;
      }
      if commentIndex >= 0 {
        line := line[..commentIndex];
      }
      fData := fData + [line];
    }
    assert data[..|data|] == data;
  }

  // ================================================================ directives and labels

  /** The characters `.` matches: all but the line terminators. */
  predicate IsLineChar(c: char)
  {
    c != '\n' && c != '\r' && c != '\U{0085}' && c != '\U{2028}' && c != '\U{2029}'
  }

  /** `line.matches("^\\.entry \\$.+")`. */
  predicate IsEntryLine(line: string)
  {
    |line| > 8 && line[..8] == ".entry $" && forall i :: 8 <= i < |line| ==> IsLineChar(line[i])
  }

  /** `line.matches("^define.+")`. */
  predicate IsDefineLine(line: string)
  {
    |line| > 6 && line[..6] == "define" && forall i :: 6 <= i < |line| ==> IsLineChar(line[i])
  }

  /** The value an entry line sets: the text after its '$' in radix 16; None where the line
      has more than one '$'-separated part after it or the number does not parse. */
  function EntryValue(line: string): Option<int>
  {
    var varArgs := Split(line, '$');
    if |varArgs| != 2 then None else ParseInt(varArgs[1], 16)
  }

  /** The name a label line declares: the text before its first ':'. */
  function LabelName(line: string): string
    requires ':' in line
  {
    line[..IndexOf(line, ':')]
  }

  /** The state of the backward loop: the lines left, the entry point, the variables and the
      labels. */
  datatype Front = Front(lines: seq<string>, entry: int, vars: Table<string>, labels: Table<int>)

  /** The entry point before any `.entry` directive. */
  const DefaultEntry := 0x0600

  /** The body of the backward loop for line i. An entry line sets the entry point and is
      removed; a define line needs exactly three name tokens, records the variable and is
      removed; a line with ':' declares the label before it, which must not contain a space.
      None where the source reports a syntax error or throws. */
  function FrontLine(f: Front, i: nat): (r: Option<Front>)
    requires i < |f.lines| && IntMin <= f.entry <= IntMax
    ensures r.Some? ==> i <= |r.value.lines| && r.value.lines[..i] == f.lines[..i]
    ensures r.Some? ==> IntMin <= r.value.entry <= IntMax
  {
    var line := f.lines[i];
    var entered :=
      if !IsEntryLine(line) then Some(f)
      else match EntryValue(line)
        case None => None
        case Some(e) => Some(f.(lines := f.lines[..i] + f.lines[i + 1..], entry := e));
    match entered
    case None => None
    case Some(g) =>
      assert IsDefineLine(line) ==> line[0] == 'd' && !IsEntryLine(line);
      if IsDefineLine(line) then
        var varArgs := SplitNames(line);
        if |varArgs| != 3 then None
        else Some(g.(lines := g.lines[..i] + g.lines[i + 1..], vars := Put(g.vars, varArgs[1], varArgs[2])))
      else if ':' in line then
        if ' ' in LabelName(line) then None else Some(g.(labels := Put(g.labels, LabelName(line), 0)))
      else Some(g)
  }

  /** The backward loop from line i - 1 down to line 0. */
  function Scan(f: Front, i: nat): (r: Option<Front>)
    requires i <= |f.lines| && IntMin <= f.entry <= IntMax
    ensures r.Some? ==> IntMin <= r.value.entry <= IntMax
    decreases i
  {
    if i == 0 then Some(f)
    else match FrontLine(f, i - 1)
      case None => None
      case Some(g) => Scan(g, i - 1)
  }

  /** The front end over the filtered lines. */
  function FrontEnd(fData: seq<string>): (r: Option<Front>)
    ensures r.Some? ==> IntMin <= r.value.entry <= IntMax
  {
    Scan(Front(fData, DefaultEntry, [], []), |fData|)
  }

  /** The backward loop's body for line i. */
  method ReadLine(lines: seq<string>, entryPoint: int, asmVars: Table<string>, asmLabels: Table<int>, i: nat)
    returns (r: Option<Front>)
    requires i < |lines| && IntMin <= entryPoint <= IntMax
    ensures r == FrontLine(Front(lines, entryPoint, asmVars, asmLabels), i)
  {
    var f := Front(lines, entryPoint, asmVars, asmLabels);
    var line := lines[i];
    if IsEntryLine(line) {
      var varArgs := Split(line, '$');
      if |varArgs| != 2 {
        return None;
      }
      var e := ParseInt(varArgs[1], 16);
      if e.None? {
        return None;
      }
      f := f.(lines := f.lines[..i] + f.lines[i + 1..], entry := e.value);
    }
    assert IsDefineLine(line) ==> line[0] == 'd' && !IsEntryLine(line);
    if IsDefineLine(line) {
      var varArgs := SplitNames(line);
      if |varArgs| != 3 {
        return None;
      }
      f := f.(lines := f.lines[..i] + f.lines[i + 1..], vars := Put(f.vars, varArgs[1], varArgs[2]));
    } else if ':' in line {
      var name := line[..IndexOf(line, ':')];
      if ' ' in name {
        return None;
      }
      f := f.(labels := Put(f.labels, name, 0));
    }
    return Some(f);
  }

  method ReadDirectives(fData: seq<string>) returns (r: Option<Front>)
    ensures r == FrontEnd(fData)
  {
    var lines := fData;
    var entryPoint := DefaultEntry;
    var asmVars: Table<string> := [];
    var asmLabels: Table<int> := [];
    var i := |fData|;
    while i > 0
      invariant 0 <= i <= |lines| && IntMin <= entryPoint <= IntMax
      invariant Scan(Front(lines, entryPoint, asmVars, asmLabels), i) == FrontEnd(fData)
    {
      i := i - 1;
      var g := ReadLine(lines, entryPoint, asmVars, asmLabels, i);
      if g.None? {
        return None;
      }
      lines, entryPoint, asmVars, asmLabels := g.value.lines, g.value.entry, g.value.vars, g.value.labels;
    }
    return Some(Front(lines, entryPoint, asmVars, asmLabels));
  }

  // ================================================================ the sizing pass

  /** A line with its variables substituted: for each variable in iteration order, when its
      name occurs as a whole word, every occurrence is replaced by its value. */
  function SubstituteVars(line: string, vars: Table<string>): string
    decreases |vars|
  {
    if vars == [] then line
    else
      SubstituteVars(if ContainsWord(line, vars[0].0) then Replace(line, vars[0].0, vars[0].1)
                     else line, vars[1..])
  }

  /** A line that declares a label: the name and its ':' are removed (every occurrence, as
      `replace` does). */
  function LabelRest(line: string): string
    requires ':' in line
  {
    Replace(line, LabelName(line) + ":", "")
  }

  /** A label line with nothing after the label. */
  predicate IsBlank(s: string)
  {
    RemoveSpaces(s) == []
  }

  /** A line without its label declaration, if it has one. */
  function Code(line: string): string
  {
    if ':' in line then LabelRest(line) else line
  }

  /** A line that only declares a label and takes no bytes. */
  predicate OnlyLabel(line: string)
  {
    ':' in line && IsBlank(LabelRest(line))
  }

  /** The instructions whose label operand is an absolute address. */
  predicate IsJump(name: string)
  {
    EqualsIgnoreCase(name, "JMP") || EqualsIgnoreCase(name, "JSR")
  }

  /** The hex token the sizing pass writes for a label after the mnemonic `name`: as wide as
      the address the final pass writes there. */
  function Placeholder(name: string): (y: string)
    ensures IsToken(y) && y[0] == '$' && AllHex(y[1..])
    ensures |y| == if IsJump(name) then 5 else 3
  {
    if IsJump(name) then "$0000" else "$00"
  }

  /** The sizing pass's label replacement: for each label name in iteration order that occurs
      as a whole word, the line is assembled to learn its mnemonic, and every occurrence of the
      name becomes its Placeholder. None where getBytes returns null or throws. */
  function Placeholders(line: string, names: seq<string>): Option<string>
    decreases |names|
  {
    if names == [] then Some(line)
    else if !ContainsWord(line, names[0]) then Placeholders(line, names[1..])
    else match GetBytes(line)
      case Data(d) =>
        Placeholders(Replace(line, names[0], Placeholder(d.name)), names[1..])
      case _ => None
  }

  /** The bytes of a line that has an addressing mode, None otherwise (getBytes' bytes are
      null, or getBytes itself returned null or threw). */
  function LineBytes(line: string): (r: Option<seq<Byte>>)
    ensures r.Some? <==> GetBytes(line).Data? && GetBytes(line).data.bytes.Some?
    ensures r.Some? ==> r.value == GetBytes(line).data.bytes.value && |r.value| >= 1
  {
    match GetBytes(line)
    case Data(d) => if d.bytes.Some? then Some(d.bytes.value) else None
    case _ => None
  }

  /** What the sizing loop makes of one line: the line with its variables substituted, which
      is stored back; the label it declares, if any; and the bytes it takes, 0 for a line that
      only declares a label, None where assembly fails. None of it depends on the lines
      before: the placeholders need only the label names, which the pass does not change. */
  datatype LineSize = LineSize(stored: string, declares: Option<string>, size: Option<nat>)

  function SizeOf(line: string, vars: Table<string>, names: seq<string>): LineSize
  {
    var stored := SubstituteVars(line, vars);
    var declared := if ':' in stored then Some(LabelName(stored)) else None;
    if OnlyLabel(stored) then LineSize(stored, declared, Some(0))
    else
      var size :=
        match Placeholders(Code(stored), names)
        case None => None
        case Some(l) => (match LineBytes(l) case None => None case Some(b) => Some(|b|));
      LineSize(stored, declared, size)
  }

  /** The sizing loop's outcomes for every line. */
  function Sizes(lines: seq<string>, vars: Table<string>, names: seq<string>): (r: seq<LineSize>)
    ensures |r| == |lines| && forall i :: 0 <= i < |lines| ==> r[i] == SizeOf(lines[i], vars, names)
  {
    seq(|lines|, i requires 0 <= i < |lines| => SizeOf(lines[i], vars, names))
  }

  /** sizes holds the outcome of every line. The quantifier fires only on SizeOf terms, so a
      loop over the lines that carries it does not evaluate any line it does not ask for. */
  ghost predicate SizesOf(sizes: seq<LineSize>, lines: seq<string>, vars: Table<string>, names: seq<string>)
  {
    |sizes| == |lines|
    && forall j {:trigger SizeOf(lines[j], vars, names)} ::
         0 <= j < |lines| ==> sizes[j] == SizeOf(lines[j], vars, names)
  }

  /** Some sequence, namely Sizes, holds the outcome of every line. */
  lemma OutcomesOf(lines: seq<string>, vars: Table<string>, names: seq<string>)
    returns (sizes: seq<LineSize>)
    ensures SizesOf(sizes, lines, vars, names)
  {
    sizes := Sizes(lines, vars, names);
  }

  /** Only Sizes holds the outcome of every line. */
  lemma SizesAre(sizes: seq<LineSize>, lines: seq<string>, vars: Table<string>, names: seq<string>)
    requires SizesOf(sizes, lines, vars, names)
    ensures sizes == Sizes(lines, vars, names)
  {
    forall j | 0 <= j < |lines|
      ensures sizes[j] == Sizes(lines, vars, names)[j]
    {
      assert sizes[j] == SizeOf(lines[j], vars, names);
    }
  }

  /** The state of the sizing loop: the lines (with variables substituted so far), the labels
      and the bytes counted. */
  datatype Sizing = Sizing(lines: seq<string>, labels: Table<int>, byteCount: int)

  /** The sizing loop's body for line i with outcome o: the substituted line is stored back,
      a label declared on it gets the current count as its offset, and its bytes are added to
      the count. */
  function SizeStep(st: Sizing, i: nat, o: LineSize): (r: Option<Sizing>)
    requires i < |st.lines|
  {
    match o.size
    case None => None
    case Some(n) =>
      var labels := if o.declares.Some? then ReplaceValue(st.labels, o.declares.value, st.byteCount)
                    else st.labels;
      Some(Sizing(st.lines[i := o.stored], labels, st.byteCount + n))
  }

  /** The sizing loop over the first n lines, given each line's outcome. */
  function SizeUpTo(st: Sizing, sizes: seq<LineSize>, n: nat): (r: Option<Sizing>)
    requires n <= |st.lines| && n <= |sizes|
    ensures r.Some? ==> |r.value.lines| == |st.lines|
  {
    if n == 0 then Some(st)
    else match SizeUpTo(st, sizes, n - 1)
      case None => None
      case Some(s) => SizeStep(s, n - 1, sizes[n - 1])
  }

  /** The sizing loop's state after line i, when the line is sized. */
  lemma SizeNext(init: Sizing, sizes: seq<LineSize>, i: nat, before: Sizing)
    requires i < |init.lines| && i < |sizes| && SizeUpTo(init, sizes, i) == Some(before)
    requires sizes[i].size.Some?
    ensures var o := sizes[i];
      SizeUpTo(init, sizes, i + 1)
      == Some(Sizing(before.lines[i := o.stored],
                     if o.declares.Some? then ReplaceValue(before.labels, o.declares.value, before.byteCount)
                     else before.labels,
                     before.byteCount + o.size.value))
  {
  }

  /** Once a line fails, the whole pass fails. */
  lemma {:induction false} SizeFails(st: Sizing, sizes: seq<LineSize>, i: nat, n: nat)
    requires i <= n <= |st.lines| && n <= |sizes| && SizeUpTo(st, sizes, i).None?
    ensures SizeUpTo(st, sizes, n).None?
    decreases n
  {
    if n > i {
      SizeFails(st, sizes, i, n - 1);
    }
  }

  /** The sizing pass over the lines the front end left. */
  function Sized(f: Front): Option<Sizing>
  {
    SizeUpTo(Sizing(f.lines, f.labels, 0), Sizes(f.lines, f.vars, Keys(f.labels)), |f.lines|)
  }

  /** The variable loop of the sizing pass. */
  method SubstituteLine(line: string, vars: Table<string>) returns (r: string)
    ensures r == SubstituteVars(line, vars)
  {
    r := line;
    for j := 0 to |vars|
      invariant SubstituteVars(r, vars[j..]) == SubstituteVars(line, vars)
    {
      if ContainsWord(r, vars[j].0) {
        r := Replace(r, vars[j].0, vars[j].1);
      }
      assert vars[j..][1..] == vars[j + 1..];
    }
  }

  /** The placeholder loop of the sizing pass. */
  method PlaceholderLine(line: string, names: seq<string>) returns (r: Option<string>)
    ensures r == Placeholders(line, names)
  {
    var l := line;
    for k := 0 to |names|
      invariant Placeholders(l, names[k..]) == Placeholders(line, names)
    {
      assert names[k..][1..] == names[k + 1..];
      if ContainsWord(l, names[k]) {
        var bytecode := GetBytes(l);
        if !bytecode.Data? {
          return None;
        }
        var addr := if IsJump(bytecode.data.name) then "$0000" else "$00";
        l := Replace(l, names[k], addr);
      }
    }
    return Some(l);
  }

  /** The sizing loop's body for one line, up to the update of the loop's state. */
  method SizeLine(line: string, vars: Table<string>, names: seq<string>) returns (o: LineSize)
    ensures o == SizeOf(line, vars, names)
  {
    var l := SubstituteLine(line, vars);
    var stored := l;
    var declared := None;
    if ':' in l {
      var name := l[..IndexOf(l, ':')];
      declared := Some(name);
      l := Replace(l, name + ":", "");
      if IsBlank(l) {
        return LineSize(stored, declared, Some(0));
      }
    }
    var placed := PlaceholderLine(l, names);
    if placed.None? {
      return LineSize(stored, declared, None);
    }
    var hexData := LineBytes(placed.value);
    if hexData.None? {
      return LineSize(stored, declared, None);
    }
    return LineSize(stored, declared, Some(|hexData.value|));
  }

  /** SizeLine for line i of lines, stated through the outcomes sizes holds. */
  method SizeLineAt(line: string, vars: Table<string>, names: seq<string>,
                    ghost sizes: seq<LineSize>, ghost lines: seq<string>, ghost i: nat)
    returns (o: LineSize)
    requires SizesOf(sizes, lines, vars, names) && i < |lines| && lines[i] == line
    ensures o == sizes[i]
  {
    o := SizeLine(line, vars, names);
  }

  method SizeLines(f: Front) returns (r: Option<Sizing>)
    ensures r == Sized(f)
  {
    var fData := f.lines;
    var asmLabels := f.labels;
    var byteCount := 0;
    ghost var init := Sizing(f.lines, f.labels, 0);
    var names := Keys(f.labels);
    ghost var sizes := OutcomesOf(f.lines, f.vars, names);
    for i := 0 to |fData|
      invariant |fData| == |f.lines| == |sizes|
      invariant forall j :: i <= j < |fData| ==> fData[j] == f.lines[j]
      invariant SizeUpTo(init, sizes, i) == Some(Sizing(fData, asmLabels, byteCount))
    {
      var o := SizeLineAt(fData[i], f.vars, names, sizes, f.lines, i);
      if o.size.None? {
        SizeFails(init, sizes, i + 1, |fData|);
        SizesAre(sizes, f.lines, f.vars, names);
        return None;
      }
      SizeNext(init, sizes, i, Sizing(fData, asmLabels, byteCount));
      var labels := if o.declares.Some? then ReplaceValue(asmLabels, o.declares.value, byteCount)
                    else asmLabels;
      fData, asmLabels, byteCount := fData[i := o.stored], labels, byteCount + o.size.value;
    }
    SizesAre(sizes, f.lines, f.vars, names);
    return Some(Sizing(fData, asmLabels, byteCount));
  }

  // ================================================================ the final pass

  /** The text a label reference becomes in the final pass: after JMP/JSR the label's address,
      entry point plus offset (as a Java int), in four hex digits; otherwise the displacement
      from the end of the two-byte branch, as a byte in two hex digits. None where the
      displacement is above 128 or below -127. */
  function Address(isJump: bool, entry: int, offset: int, byteCount: int): Option<string>
  {
    if isJump then Some("$" + FormatHex(Int32(entry + offset), 4))
    else
      var offs := offset - (byteCount + 2);
      if offs > 128 || offs < -127 then None else Some("$" + FormatHex(ToByte(offs), 2))
  }

  /** The final pass's label replacement, for a line at byteCount: for each label in iteration
      order that occurs as a whole word, every occurrence of its name becomes its Address. None
      where getBytes returns null or throws, or a branch is out of range. */
  function Resolve(line: string, labels: Table<int>, entry: int, byteCount: int): Option<string>
    decreases |labels|
  {
    if labels == [] then Some(line)
    else if !ContainsWord(line, labels[0].0) then Resolve(line, labels[1..], entry, byteCount)
    else match GetBytes(line)
      case Data(d) =>
        (match Address(IsJump(d.name), entry, labels[0].1, byteCount)
         case None => None
         case Some(a) => Resolve(Replace(line, labels[0].0, a), labels[1..], entry, byteCount))
      case _ => None
  }

  /** The bytes emitted so far and the count the source keeps beside them. */
  datatype Output = Output(bytes: seq<Byte>, byteCount: int)

  /** What the final loop emits for a line when byteCount bytes precede it: nothing for a line
      that only declares a label; for any other line, its label declaration removed and its
      label references resolved, its bytes. None where assembly fails. */
  function LineEmit(line: string, labels: Table<int>, entry: int, byteCount: int): Option<seq<Byte>>
  {
    if OnlyLabel(line) then Some([])
    else match Resolve(Code(line), labels, entry, byteCount)
      case None => None
      case Some(l) => LineBytes(l)
  }

  /** The final loop over the first n lines, where emit(j, c) is what line j emits after c
      bytes. The count is always the number of bytes emitted. */
  function EmitUpTo(emit: (nat, int) -> Option<seq<Byte>>, n: nat): (r: Option<Output>)
    ensures r.Some? ==> r.value.byteCount == |r.value.bytes|
  {
    if n == 0 then Some(Output([], 0))
    else match EmitUpTo(emit, n - 1)
      case None => None
      case Some(out) =>
        match emit(n - 1, out.byteCount)
        case None => None
        case Some(b) => Some(Output(out.bytes + b, out.byteCount + |b|))
  }

  /** Once a line fails, the whole pass fails. */
  lemma {:induction false} EmitFails(emit: (nat, int) -> Option<seq<Byte>>, i: nat, n: nat)
    requires i <= n && EmitUpTo(emit, i).None?
    ensures EmitUpTo(emit, n).None?
    decreases n
  {
    if n > i {
      EmitFails(emit, i, n - 1);
    }
  }

  /** The final loop depends only on what each line emits. */
  lemma {:induction false} EmitSame(emit: (nat, int) -> Option<seq<Byte>>,
                                    emit': (nat, int) -> Option<seq<Byte>>, n: nat)
    requires forall j: nat, c :: j < n ==> emit(j, c) == emit'(j, c)
    ensures EmitUpTo(emit, n) == EmitUpTo(emit', n)
  {
    if n > 0 {
      EmitSame(emit, emit', n - 1);
    }
  }

  /** What each of the lines emits. */
  function LineEmits(lines: seq<string>, labels: Table<int>, entry: int): (nat, int) -> Option<seq<Byte>>
  {
    (j: nat, c: int) => if j < |lines| then LineEmit(lines[j], labels, entry, c) else None
  }

  /** The final pass over the sized lines. */
  function Emitted(lines: seq<string>, labels: Table<int>, entry: int): Option<Output>
  {
    EmitUpTo(LineEmits(lines, labels, entry), |lines|)
  }

  /** emit agrees with LineEmit on every line. The quantifier fires only on LineEmit terms, so
      the final loop, which carries it, does not evaluate any line it does not ask for. */
  ghost predicate EmitsOf(emit: (nat, int) -> Option<seq<Byte>>, lines: seq<string>, labels: Table<int>, entry: int)
  {
    forall j: nat, c {:trigger LineEmit(lines[j], labels, entry, c)} ::
      j < |lines| ==> emit(j, c) == LineEmit(lines[j], labels, entry, c)
  }

  /** LineEmits agrees with LineEmit. */
  lemma EmitsOfLineEmits(lines: seq<string>, labels: Table<int>, entry: int)
    ensures EmitsOf(LineEmits(lines, labels, entry), lines, labels, entry)
  {
  }

  /** Every emit that agrees with LineEmit gives the pass Emitted describes. */
  lemma EmittedBy(emit: (nat, int) -> Option<seq<Byte>>, lines: seq<string>, labels: Table<int>, entry: int)
    requires EmitsOf(emit, lines, labels, entry)
    ensures EmitUpTo(emit, |lines|) == Emitted(lines, labels, entry)
  {
    forall j: nat, c | j < |lines|
      ensures emit(j, c) == LineEmits(lines, labels, entry)(j, c)
    {
      assert emit(j, c) == LineEmit(lines[j], labels, entry, c);
    }
    EmitSame(emit, LineEmits(lines, labels, entry), |lines|);
  }

  /** The label loop of the final pass. */
  method ResolveLine(line: string, labels: Table<int>, entry: int, byteCount: int)
    returns (r: Option<string>)
    ensures r == Resolve(line, labels, entry, byteCount)
  {
    var l := line;
    for k := 0 to |labels|
      invariant Resolve(l, labels[k..], entry, byteCount) == Resolve(line, labels, entry, byteCount)
    {
      assert labels[k..][1..] == labels[k + 1..];
      if ContainsWord(l, labels[k].0) {
        var bytecode := GetBytes(l);
        if !bytecode.Data? {
          return None;
        }
        var addr := "";
        if IsJump(bytecode.data.name) {
          addr := FormatHex(Int32(entry + labels[k].1), 4);
        } else {
          var offs := labels[k].1 - (byteCount + 2);
          if offs > 128 || offs < -127 {
            return None;
          }
          addr := FormatHex(ToByte(offs), 2);
        }
        l := Replace(l, labels[k].0, "$" + addr);
      }
    }
    return Some(l);
  }

  /** The final loop's body for one line, up to the update of the loop's state. */
  method EmitLine(line: string, labels: Table<int>, entry: int, byteCount: int)
    returns (r: Option<seq<Byte>>)
    ensures r == LineEmit(line, labels, entry, byteCount)
  {
    var l := line;
    if ':' in l {
      var name := l[..IndexOf(l, ':')];
      l := Replace(l, name + ":", "");
      if IsBlank(l) {
        return Some([]);
      }
    }
    var resolved := ResolveLine(l, labels, entry, byteCount);
    if resolved.None? {
      return None;
    }
    r := LineBytes(resolved.value);
  }

  /** EmitLine for line i of lines, stated through emit. */
  method EmitLineAt(line: string, labels: Table<int>, entry: int, byteCount: int,
                    ghost emit: (nat, int) -> Option<seq<Byte>>, ghost lines: seq<string>, ghost i: nat)
    returns (r: Option<seq<Byte>>)
    requires EmitsOf(emit, lines, labels, entry) && i < |lines| && lines[i] == line
    ensures r == emit(i, byteCount)
  {
    r := EmitLine(line, labels, entry, byteCount);
  }

  method EmitLines(lines: seq<string>, labels: Table<int>, entry: int) returns (r: Option<Output>)
    ensures r == Emitted(lines, labels, entry)
  {
    var outputHex: seq<Byte> := [];
    var byteCount := 0;
    EmitsOfLineEmits(lines, labels, entry);
    ghost var emit :| EmitsOf(emit, lines, labels, entry);
    assert EmitsOf(emit, lines, labels, entry);
    for i := 0 to |lines|
      invariant EmitUpTo(emit, i) == Some(Output(outputHex, byteCount))
    {
      var bytecode := EmitLineAt(lines[i], labels, entry, byteCount, emit, lines, i);
      if bytecode.None? {
        EmitFails(emit, i + 1, |lines|);
        EmittedBy(emit, lines, labels, entry);
        return None;
      }
      outputHex := outputHex + bytecode.value;
      byteCount := byteCount + |bytecode.value|;
    }
    EmittedBy(emit, lines, labels, entry);
    return Some(Output(outputHex, byteCount));
  }

  // ================================================================ the listing

  /** The listing being built: the finished rows and the current one. */
  datatype Listing = Listing(rows: seq<string>, current: string)

  /** The listing loop's body for the byte b at address i: at a multiple of 16 the current row,
      if it has text, is finished and a new one starts with "aaaa: "; then "bb " is added. */
  function ListByte(l: Listing, i: int, b: Byte): Listing
    requires IntMin <= i <= IntMax
  {
    var started :=
      if i % 16 != 0 then l
      else if |l.current| > 0 then Listing(l.rows + [l.current], FormatHex(i, 4) + ": ")
      else Listing(l.rows, l.current + FormatHex(i, 4) + ": ");
    started.(current := started.current + FormatHex(b, 2) + " ")
  }

  /** The listing after the first k bytes, the first at address entry. */
  function ListUpTo(entry: int, out: seq<Byte>, k: nat): Listing
    requires k <= |out| && IntMin <= entry && entry + k <= IntMax + 1
  {
    if k == 0 then Listing([], "") else ListByte(ListUpTo(entry, out, k - 1), entry + k - 1, out[k - 1])
  }

  /** How many bytes the listing loop visits: it runs from the entry point while below the
      Java int sum of the entry point and the byte count. */
  function Listed(entry: int, count: nat): (n: nat)
    requires IntMin <= entry <= IntMax
    ensures n <= count && entry + n <= IntMax + 1
    ensures entry + count <= IntMax ==> n == count
  {
    var bound := Int32(entry + count);
    if bound > entry then bound - entry else 0
  }

  /** The rows the assembler returns: every finished row and the last one, which is added even
      when empty. */
  function Disassembly(entry: int, out: seq<Byte>): seq<string>
    requires IntMin <= entry <= IntMax
  {
    var l := ListUpTo(entry, out, Listed(entry, |out|));
    l.rows + [l.current]
  }

  method List(entry: int, out: seq<Byte>) returns (disassembly: seq<string>)
    requires IntMin <= entry <= IntMax
    ensures disassembly == Disassembly(entry, out)
  {
    disassembly := [];
    var line := "";
    var i := entry;
    var bound := Int32(entry + |out|);
    while i < bound
      invariant entry <= i && (i - entry <= Listed(entry, |out|))
      invariant bound > entry ==> i <= bound
      invariant ListUpTo(entry, out, i - entry) == Listing(disassembly, line)
      decreases bound - i
    {
      if i % 16 == 0 {
        if |line| > 0 {
          disassembly := disassembly + [line];
          line := "";
        }
        line := line + FormatHex(i, 4) + ": ";
      }
      line := line + FormatHex(out[i - entry], 2) + " ";
      i := i + 1;
    }
    disassembly := disassembly + [line];
  }

  // ================================================================ the whole assembler

  /** assemble(String[]): the listing, or None where the source returns null or throws. */
  function Assembled(data: seq<string>): Option<seq<string>>
  {
    match FrontEnd(Filtered(data))
    case None => None
    case Some(f) =>
      match Sized(f)
      case None => None
      case Some(s) =>
        match Emitted(s.lines, s.labels, f.entry)
        case None => None
        case Some(out) => Some(Disassembly(f.entry, out.bytes))
  }

  method Assemble(data: seq<string>) returns (r: Option<seq<string>>)
    ensures r == Assembled(data)
  {
    var fData := Filter(data);
    var front := ReadDirectives(fData);
    if front.None? {
      return None;
    }
    var sized := SizeLines(front.value);
    if sized.None? {
      return None;
    }
    var out := EmitLines(sized.value.lines, sized.value.labels, front.value.entry);
    if out.None? {
      return None;
    }
    var listing := List(front.value.entry, out.value.bytes);
    return Some(listing);
  }
}
