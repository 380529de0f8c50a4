/** What the backward directive loop of Assemble6502.java's assemble() does with the filtered
    lines, stated line by line and over the whole loop: `.entry` and `define` lines are removed
    and every other line is kept in order; the topmost `.entry` line sets the entry point,
    which is 0x0600 when there is none; every label is recorded at offset 0; and the loop
    fails exactly when some line is a malformed directive or declares a label with a space. */
module Directives {
  import opened Wrappers
  import opened Text
  import opened Assembler

  /** A line the loop removes. */
  predicate IsDirective(line: string)
  {
    IsEntryLine(line) || IsDefineLine(line)
  }

  /** The lines the loop keeps, in order. */
  function NonDirectives(lines: seq<string>): (r: seq<string>)
    ensures forall k :: 0 <= k < |r| ==> !IsDirective(r[k])
  {
    if lines == [] then []
    else
      var last := lines[|lines| - 1];
      NonDirectives(lines[..|lines| - 1]) + if IsDirective(last) then [] else [last]
  }

  /** The first `.entry` line, if any. */
  function FirstEntry(lines: seq<string>): (r: Option<string>)
    ensures r.Some? ==> r.value in lines && IsEntryLine(r.value)
    ensures r.None? ==> forall k :: 0 <= k < |lines| ==> !IsEntryLine(lines[k])
  {
    if lines == [] then None
    else if IsEntryLine(lines[0]) then Some(lines[0])
    else FirstEntry(lines[1..])
  }

  /** A line on which the loop reports a syntax error or throws: an `.entry` line whose value
      does not parse, a `define` line without exactly three name tokens, or a label whose name
      holds a space. */
  predicate Fails(line: string)
  {
    if IsEntryLine(line) && EntryValue(line).None? then true
    else if IsDefineLine(line) then |SplitNames(line)| != 3
    else ':' in line && ' ' in LabelName(line)
  }

  /** Every label recorded so far sits at offset 0. */
  predicate AllZero(labels: Table<int>)
  {
    forall k :: 0 <= k < |labels| ==> labels[k].1 == 0
  }

  // ================================================================ one line

  /** One step of the loop fails exactly on a failing line; otherwise a directive line is
      removed and any other line stays, the lines above it are untouched, an `.entry` line
      sets the entry point, a `define` line records its second token under its first, and a
      label line records its name at offset 0. */
  lemma StepLine(f: Front, i: nat)
    requires i < |f.lines| && IntMin <= f.entry <= IntMax
    ensures var line := f.lines[i]; var r := FrontLine(f, i);
      (r.None? <==> Fails(line))
      && (r.Some? ==>
            r.value.lines == (if IsDirective(line) then f.lines[..i] + f.lines[i + 1..] else f.lines)
            && r.value.entry == (if IsEntryLine(line) then EntryValue(line).value else f.entry)
            && r.value.vars ==
                 (if IsDefineLine(line) then Put(f.vars, SplitNames(line)[1], SplitNames(line)[2])
                  else f.vars)
            && r.value.labels ==
                 (if !IsDefineLine(line) && ':' in line then Put(f.labels, LabelName(line), 0)
                  else f.labels))
  {
    var line := f.lines[i];
    assert IsDefineLine(line) ==> line[0] == 'd' && !IsEntryLine(line);
  }

  /** put with 0 keeps every label at offset 0. */
  lemma {:induction false} PutZero(labels: Table<int>, name: string)
    requires AllZero(labels)
    ensures AllZero(Put(labels, name, 0))
  {
    if labels != [] && labels[0].0 != name {
      PutZero(labels[1..], name);
      assert Put(labels, name, 0) == [labels[0]] + Put(labels[1..], name, 0);
    }
  }

  // ================================================================ the whole loop

  /** Some line of the sequence fails. */
  predicate SomeFails(lines: seq<string>)
  {
    lines != [] && (SomeFails(lines[..|lines| - 1]) || Fails(lines[|lines| - 1]))
  }

  /** SomeFails holds exactly when some line fails. */
  lemma {:induction false} SomeFailsExists(lines: seq<string>)
    ensures SomeFails(lines) <==> exists k :: 0 <= k < |lines| && Fails(lines[k])
    decreases |lines|
  {
    if lines != [] {
      var init := lines[..|lines| - 1];
      SomeFailsExists(init);
      if k :| 0 <= k < |lines| && Fails(lines[k]) {
        if k < |init| {
          assert init[k] == lines[k];
        }
      }
      if k :| 0 <= k < |init| && Fails(init[k]) {
        assert lines[k] == init[k];
      }
    }
  }

  /** The loop over lines i - 1 down to 0 fails exactly when one of them fails. */
  lemma {:induction false} ScanFails(f: Front, i: nat)
    requires i <= |f.lines| && IntMin <= f.entry <= IntMax
    ensures Scan(f, i).None? <==> SomeFails(f.lines[..i])
    decreases i
  {
    if i > 0 {
      StepLine(f, i - 1);
      var r := FrontLine(f, i - 1);
      assert f.lines[..i][..i - 1] == f.lines[..i - 1];
      assert f.lines[..i][i - 1] == f.lines[i - 1];
      if r.Some? {
        var g := r.value;
        ScanFails(g, i - 1);
        assert g.lines[..i - 1] == f.lines[..i - 1];
      }
    }
  }

  /** The loop removes the directive lines above line i and keeps the rest in order. */
  lemma {:induction false} ScanLines(f: Front, i: nat)
    requires i <= |f.lines| && IntMin <= f.entry <= IntMax
    ensures Scan(f, i).Some? ==> Scan(f, i).value.lines == NonDirectives(f.lines[..i]) + f.lines[i..]
    decreases i
  {
    if i > 0 {
      StepLines(f, i - 1);
      var r := FrontLine(f, i - 1);
      if r.Some? {
        var g := r.value;
        ScanLines(g, i - 1);
        KeptLines(f.lines, g.lines, i);
      }
    }
  }

  /** One step of the loop removes line i when it is a directive and changes no other line. */
  lemma StepLines(f: Front, i: nat)
    requires i < |f.lines| && IntMin <= f.entry <= IntMax
    ensures FrontLine(f, i).Some? ==>
      FrontLine(f, i).value.lines
      == if IsDirective(f.lines[i]) then f.lines[..i] + f.lines[i + 1..] else f.lines
  {
    StepLine(f, i);
  }

  /** The lines left by step i - 1, with the directives above it removed, are those of the
      lines before the step with the directives above line i removed. */
  lemma KeptLines(lines: seq<string>, next: seq<string>, i: nat)
    requires 0 < i <= |lines|
    requires next == if IsDirective(lines[i - 1]) then lines[..i - 1] + lines[i..] else lines
    ensures |next| >= i - 1
    ensures NonDirectives(next[..i - 1]) + next[i - 1..] == NonDirectives(lines[..i]) + lines[i..]
  {
    var pre, last := lines[..i - 1], lines[i - 1];
    assert next[..i - 1] == pre;
    assert lines[..i][..i - 1] == pre && lines[..i][i - 1] == last;
    assert NonDirectives(lines[..i]) == NonDirectives(pre) + if IsDirective(last) then [] else [last];
    if IsDirective(last) {
      assert next[i - 1..] == lines[i..];
    } else {
      assert next[i - 1..] == [last] + lines[i..];
      assert NonDirectives(pre) + [last] + lines[i..] == NonDirectives(pre) + ([last] + lines[i..]);
    }
  }

  /** The loop leaves the entry point of the topmost `.entry` line above line i, or the one it
      started with when there is none. */
  lemma {:induction false} ScanEntry(f: Front, i: nat)
    requires i <= |f.lines| && IntMin <= f.entry <= IntMax
    ensures Scan(f, i).Some? ==>
      match FirstEntry(f.lines[..i])
      case None => Scan(f, i).value.entry == f.entry
      case Some(l) => EntryValue(l).Some? && Scan(f, i).value.entry == EntryValue(l).value
    decreases i
  {
    if i > 0 {
      StepLine(f, i - 1);
      var r := FrontLine(f, i - 1);
      if r.Some? {
        var g := r.value;
        ScanEntry(g, i - 1);
        assert g.lines[..i - 1] == f.lines[..i - 1];
        FirstEntryLast(f.lines[..i]);
        assert f.lines[..i][..i - 1] == f.lines[..i - 1];
      }
    }
  }

  /** The first `.entry` line of a sequence is that of all but its last line, or else the last
      line when that is one. */
  lemma {:induction false} FirstEntryLast(lines: seq<string>)
    requires lines != []
    ensures var init := lines[..|lines| - 1]; var last := lines[|lines| - 1];
      FirstEntry(lines)
      == if FirstEntry(init).Some? then FirstEntry(init)
         else if IsEntryLine(last) then Some(last) else None
    decreases |lines|
  {
    if |lines| > 1 && !IsEntryLine(lines[0]) {
      FirstEntryLast(lines[1..]);
      assert lines[1..][..|lines| - 2] == lines[..|lines| - 1][1..];
    }
  }

  /** The loop records every label at offset 0. */
  lemma {:induction false} ScanLabels(f: Front, i: nat)
    requires i <= |f.lines| && IntMin <= f.entry <= IntMax && AllZero(f.labels)
    ensures Scan(f, i).Some? ==> AllZero(Scan(f, i).value.labels)
    decreases i
  {
    if i > 0 {
      StepLine(f, i - 1);
      var r := FrontLine(f, i - 1);
      if r.Some? {
        var line := f.lines[i - 1];
        if !IsDefineLine(line) && ':' in line {
          PutZero(f.labels, LabelName(line));
        }
        ScanLabels(r.value, i - 1);
      }
    }
  }

  /** The front end over the filtered lines: it fails exactly when a line fails; otherwise it
      keeps the non-directive lines in order, takes the topmost `.entry` value as entry point
      (0x0600 without one), and records every label at offset 0. */
  lemma FrontEndResult(fData: seq<string>)
    ensures FrontEnd(fData).None? <==> exists k :: 0 <= k < |fData| && Fails(fData[k])
    ensures FrontEnd(fData).Some? ==>
      var f := FrontEnd(fData).value;
      f.lines == NonDirectives(fData) && AllZero(f.labels)
      && match FirstEntry(fData)
         case None => f.entry == DefaultEntry
         case Some(l) => f.entry == EntryValue(l).value
  {
    var f0 := Front(fData, DefaultEntry, [], []);
    ScanFails(f0, |fData|);
    SomeFailsExists(fData);
    ScanLines(f0, |fData|);
    ScanEntry(f0, |fData|);
    ScanLabels(f0, |fData|);
    assert fData[..|fData|] == fData;
  }
}
