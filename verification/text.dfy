/** The parts of java.lang.String, java.util.regex and Integer that the assembler and the memory
    importer rely on, written out over `seq<char>`. Only ASCII case mapping and ASCII word
    characters are modelled. */
module Text {
  import opened Wrappers

  // ---------------------------------------------------------------- trimming and whitespace

  /** `String.trim` removes every character at or below U+0020 from both ends. */
  predicate IsTrimmable(c: char) { c <= ' ' }

  function TrimStart(s: string): (r: string)
    ensures |r| <= |s| && r == s[|s| - |r|..]
    ensures r == [] || !IsTrimmable(r[0])
  {
    if s != [] && IsTrimmable(s[0]) then TrimStart(s[1..]) else s
  }

  function TrimEnd(s: string): (r: string)
    ensures |r| <= |s| && r == s[..|r|]
    ensures r == [] || !IsTrimmable(r[|r| - 1])
  {
    if s != [] && IsTrimmable(s[|s| - 1]) then TrimEnd(s[..|s| - 1]) else s
  }

  function Trim(s: string): string { TrimEnd(TrimStart(s)) }

  /** The regex class `\s`: space, tab, newline, vertical tab, form feed, carriage return. */
  predicate IsSpace(c: char)
  {
    c == ' ' || c == '\t' || c == '\n' || c as int == 0x0B || c as int == 0x0C || c == '\r'
  }

  /** `s.replaceAll("\\s", "")`. */
  function RemoveSpaces(s: string): (r: string)
    ensures |r| <= |s|
    ensures forall i :: 0 <= i < |r| ==> !IsSpace(r[i])
  {
    if s == [] then [] else (if IsSpace(s[0]) then [] else [s[0]]) + RemoveSpaces(s[1..])
  }

  // ---------------------------------------------------------------- searching

  /** `s.indexOf(c)`: the first position of `c`, or -1. */
  function IndexOf(s: string, c: char): (r: int)
    ensures -1 <= r < |s|
    ensures r >= 0 ==> s[r] == c && c !in s[..r]
    ensures r == -1 <==> c !in s
  {
    if s == [] then -1
    else if s[0] == c then 0
    else
      var k := IndexOf(s[1..], c);
      if k < 0 then -1
      else
        assert s[..k + 1] == [s[0]] + s[1..][..k];
        k + 1
  }

  predicate StartsWith(s: string, prefix: string)
  {
    |prefix| <= |s| && s[..|prefix|] == prefix
  }

  // ---------------------------------------------------------------- case

  /** The first occurrence of c is at i when c is there and nowhere before. */
  lemma FirstAt(s: string, c: char, i: nat)
    requires i < |s| && s[i] == c && forall t :: 0 <= t < i ==> s[t] != c
    ensures IndexOf(s, c) == i
  {
    assert s[i] in s;
  }

  function LowerChar(c: char): char
  {
    if 'A' <= c <= 'Z' then (c as int + 32) as char else c
  }

  function UpperChar(c: char): char
  {
    if 'a' <= c <= 'z' then (c as int - 32) as char else c
  }

  /** `toLowerCase()` on ASCII text. */
  function Lower(s: string): (r: string)
    ensures |r| == |s|
    ensures forall i :: 0 <= i < |s| ==> r[i] == LowerChar(s[i])
  {
    seq(|s|, i requires 0 <= i < |s| => LowerChar(s[i]))
  }

  /** `toUpperCase()` on ASCII text. */
  function Upper(s: string): (r: string)
    ensures |r| == |s|
    ensures forall i :: 0 <= i < |s| ==> r[i] == UpperChar(s[i])
  {
    seq(|s|, i requires 0 <= i < |s| => UpperChar(s[i]))
  }

  /** `a.equalsIgnoreCase(b)` on ASCII text. */
  predicate EqualsIgnoreCase(a: string, b: string)
  {
    Upper(a) == Upper(b)
  }

  // ---------------------------------------------------------------- replacing

  /** `s.replace(target, replacement)`: every non-overlapping occurrence, left to right; an
      empty target puts the replacement between every two characters and at both ends. */
  function Replace(s: string, target: string, replacement: string): string
    decreases |s|
  {
    if target == [] then
      if s == [] then replacement else replacement + [s[0]] + Replace(s[1..], target, replacement)
    else if |s| < |target| then s
    else if s[..|target|] == target then replacement + Replace(s[|target|..], target, replacement)
    else [s[0]] + Replace(s[1..], target, replacement)
  }

  // ---------------------------------------------------------------- word boundaries

  /** The characters `\b` treats as word characters (ASCII letters, digits, underscore). */
  predicate IsWordChar(c: char)
  {
    'a' <= c <= 'z' || 'A' <= c <= 'Z' || '0' <= c <= '9' || c == '_'
  }

  /** `\b` at position i of s. */
  predicate Boundary(s: string, i: int)
    requires 0 <= i <= |s|
  {
    (i > 0 && IsWordChar(s[i - 1])) != (i < |s| && IsWordChar(s[i]))
  }

  /** `key` occurs in `s` at position i. */
  predicate OccursAt(s: string, key: string, i: int)
  {
    0 <= i && i + |key| <= |s| && s[i..i + |key|] == key
  }

  /** `s.matches(".*\\b" + key + "\\b.*")` for a key free of regex metacharacters. */
  predicate ContainsWord(s: string, key: string)
  {
    exists i :: 0 <= i <= |s| && OccursAt(s, key, i) && Boundary(s, i) && Boundary(s, i + |key|)
  }

  // ---------------------------------------------------------------- splitting

  /** The pieces of s between the occurrences of c: one more piece than occurrences. */
  function Pieces(s: string, c: char): (r: seq<string>)
    ensures |r| >= 1
    decreases |s|
  {
    var k := IndexOf(s, c);
    if k < 0 then [s] else [s[..k]] + Pieces(s[k + 1..], c)
  }

  /** Splitting at the first c: the piece before it, then the pieces of the rest. */
  lemma PiecesAfter(x: string, c: char, rest: string)
    requires c !in x
    ensures Pieces(x + [c] + rest, c) == [x] + Pieces(rest, c)
  {
    var s := x + [c] + rest;
    forall t | 0 <= t < |x| ensures s[t] != c {
      assert s[t] == x[t];
    }
    FirstAt(s, c, |x|);
    assert s[..|x|] == x;
    assert s[|x| + 1..] == rest;
  }

  function DropTrailingEmpty(p: seq<string>): (r: seq<string>)
    ensures |r| <= |p| && r == p[..|r|]
    ensures r == [] || r[|r| - 1] != ""
  {
    if p != [] && p[|p| - 1] == "" then DropTrailingEmpty(p[..|p| - 1]) else p
  }

  /** Splitting a string that starts with c: an empty piece, then the pieces of the rest. */
  lemma PiecesLeading(c: char, rest: string)
    ensures Pieces([c] + rest, c) == [""] + Pieces(rest, c)
  {
    assert ([c] + rest)[1..] == rest;
  }

  /** Splitting where the pieces end in exactly one empty piece drops that piece. */
  lemma SplitDropsLast(s: string, c: char, p: seq<string>)
    requires c in s && Pieces(s, c) == p + [""] && p != [] && p[|p| - 1] != ""
    ensures Split(s, c) == p
  {
    assert (p + [""])[..|p|] == p;
    assert DropTrailingEmpty(p + [""]) == DropTrailingEmpty(p);
    assert DropTrailingEmpty(p) == p;
  }

  /** `s.split(x)` for a one-character pattern x that is not a regex metacharacter: the input
      itself when x does not occur, otherwise the pieces without trailing empty strings. */
  function Split(s: string, c: char): seq<string>
  {
    if c !in s then [s] else DropTrailingEmpty(Pieces(s, c))
  }

  /** The characters of the class `[_a-zA-Z\$0-9]`. */
  predicate IsNameChar(c: char) { IsWordChar(c) || c == '$' }

  /** Length of the longest prefix of s made of name characters. */
  function NameRun(s: string): (k: nat)
    ensures k <= |s|
    ensures forall i :: 0 <= i < k ==> IsNameChar(s[i])
    ensures k < |s| ==> !IsNameChar(s[k])
  {
    if s == [] || !IsNameChar(s[0]) then 0 else 1 + NameRun(s[1..])
  }

  /** Length of the longest prefix of s made of other characters. */
  function SeparatorRun(s: string): (k: nat)
    ensures k <= |s|
    ensures forall i :: 0 <= i < k ==> !IsNameChar(s[i])
    ensures k < |s| ==> IsNameChar(s[k])
  {
    if s == [] || IsNameChar(s[0]) then 0 else 1 + SeparatorRun(s[1..])
  }

  /** The pieces of s between maximal runs of separator characters. */
  function NamePieces(s: string): seq<string>
    decreases |s|
  {
    var k := NameRun(s);
    if k == |s| then [s]
    else
      var rest := s[k..];
      var skip := SeparatorRun(rest);
      [s[..k]] + NamePieces(rest[skip..])
  }

  /** `s.split("[^_a-zA-Z\\$0-9]+")`. */
  function SplitNames(s: string): seq<string>
  {
    if forall i :: 0 <= i < |s| ==> IsNameChar(s[i]) then [s] else DropTrailingEmpty(NamePieces(s))
  }

  // ---------------------------------------------------------------- numbers

  /** `Character.digit(c, 36)` on ASCII: the digit value, or -1. */
  function DigitValue(c: char): (d: int)
    ensures -1 <= d < 36
  {
    if '0' <= c <= '9' then c as int - '0' as int
    else if 'a' <= c <= 'z' then c as int - 'a' as int + 10
    else if 'A' <= c <= 'Z' then c as int - 'A' as int + 10
    else -1
  }

  /** The value of a non-empty string of digits in the given radix. */
  function DigitsValue(s: string, radix: nat): Option<nat>
    requires 2 <= radix <= 36
  {
    if s == [] then None
    else
      var d := DigitValue(s[|s| - 1]);
      if d < 0 || d >= radix then None
      else if |s| == 1 then Some(d)
      else match DigitsValue(s[..|s| - 1], radix)
        case None => None
        case Some(v) => Some(v * radix + d)
  }

  const IntMin := -0x8000_0000
  const IntMax := 0x7FFF_FFFF

  /** `Integer.parseInt(s, radix)`; None where Java throws NumberFormatException. */
  function ParseInt(s: string, radix: nat): (r: Option<int>)
    requires 2 <= radix <= 36
    ensures r.Some? ==> IntMin <= r.value <= IntMax
  {
    if s == [] then None
    else
      var negative := s[0] == '-';
      var body := if s[0] == '-' || s[0] == '+' then s[1..] else s;
      match DigitsValue(body, radix)
      case None => None
      case Some(v) =>
        var r := if negative then 0 - v as int else v as int;
        if IntMin <= r <= IntMax then Some(r) else None
  }

  function HexDigit(d: nat): char
    requires d < 16
  {
    if d < 10 then ('0' as int + d) as char else ('a' as int + d - 10) as char
  }

  /** The lowercase hexadecimal digits of v, without leading zeros ("0" for zero). */
  function HexOf(v: nat): (r: string)
    ensures |r| >= 1
    decreases v
  {
    if v < 16 then [HexDigit(v)] else HexOf(v / 16) + [HexDigit(v % 16)]
  }

  function Zeros(n: nat): (r: string)
    ensures |r| == n && forall i :: 0 <= i < n ==> r[i] == '0'
  {
    seq(n, _ => '0')
  }

  /** `String.format("%0<width>x", v)` for an int: negative values print as their 32-bit two's
      complement. */
  function FormatHex(v: int, width: nat): string
    requires IntMin <= v <= IntMax
  {
    var u := if v < 0 then v + 0x1_0000_0000 else v;
    var h := HexOf(u);
    if |h| < width then Zeros(width - |h|) + h else h
  }

  // ---------------------------------------------------------------- properties

  /** White space is removed piece by piece. */
  lemma {:induction false} RemoveSpacesAppend(a: string, b: string)
    ensures RemoveSpaces(a + b) == RemoveSpaces(a) + RemoveSpaces(b)
  {
    if a == [] {
      assert a + b == b;
    } else {
      assert (a + b)[1..] == a[1..] + b;
      RemoveSpacesAppend(a[1..], b);
    }
  }

  /** Removing white space adds no character. */
  lemma {:induction false} RemoveSpacesKeeps(s: string, c: char)
    requires c !in s
    ensures c !in RemoveSpaces(s)
  {
    if s != [] {
      RemoveSpacesKeeps(s[1..], c);
    }
  }

  /** Text without white space is left as it is. */
  lemma {:induction false} RemoveSpacesNone(s: string)
    requires forall i :: 0 <= i < |s| ==> !IsSpace(s[i])
    ensures RemoveSpaces(s) == s
  {
    if s != [] {
      RemoveSpacesNone(s[1..]);
    }
  }

  /** `key` occurs somewhere in s. */
  predicate Occurs(s: string, key: string)
  {
    exists i :: 0 <= i <= |s| && OccursAt(s, key, i)
  }

  /** A target that does not occur is not replaced. */
  lemma {:induction false} ReplaceAbsent(s: string, target: string, x: string)
    requires target != [] && !Occurs(s, target)
    ensures Replace(s, target, x) == s
    decreases |s|
  {
    if |s| >= |target| {
      assert !OccursAt(s, target, 0);
      assert !Occurs(s[1..], target) by {
        forall i | 0 <= i <= |s[1..]| ensures !OccursAt(s[1..], target, i) {
          if OccursAt(s[1..], target, i) {
            assert s[i + 1..i + 1 + |target|] == s[1..][i..i + |target|];
            assert OccursAt(s, target, i + 1);
          }
        }
      }
      ReplaceAbsent(s[1..], target, x);
    }
  }

  /** A word that occurs once, between non-word characters, is replaced at that place only. */
  lemma {:induction false} ReplaceOnce(pre: string, name: string, post: string, x: string)
    requires name != [] && forall i :: 0 <= i < |name| ==> IsWordChar(name[i])
    requires pre == [] || !IsWordChar(pre[|pre| - 1])
    requires !Occurs(pre, name) && !Occurs(post, name)
    ensures Replace(pre + name + post, name, x) == pre + x + post
    decreases |pre|
  {
    if pre == [] {
      ReplaceAtStart(pre, name, post, x);
    } else {
      AbsentTail(pre, name);
      ReplaceOnce(pre[1..], name, post, x);
      ReplaceStep(pre, name, post, x);
    }
  }

  /** The base case of ReplaceOnce: the name comes first. */
  lemma ReplaceAtStart(pre: string, name: string, post: string, x: string)
    requires name != [] && pre == [] && !Occurs(post, name)
    ensures Replace(pre + name + post, name, x) == pre + x + post
  {
    var s := name + post;
    assert s[..|name|] == name && s[|name|..] == post;
    ReplaceAbsent(post, name, x);
    assert pre + name + post == s && pre + x + post == x + post;
  }

  /** The step of ReplaceOnce: the first character of pre is kept and the rest replaced. */
  lemma ReplaceStep(pre: string, name: string, post: string, x: string)
    requires name != [] && forall i :: 0 <= i < |name| ==> IsWordChar(name[i])
    requires pre != [] && !IsWordChar(pre[|pre| - 1]) && !Occurs(pre, name)
    requires Replace(pre[1..] + name + post, name, x) == pre[1..] + x + post
    ensures Replace(pre + name + post, name, x) == pre + x + post
  {
    var s := pre + name + post;
    NotAtStart(pre, name, post);
    HeadAndTail(pre, name, post);
    HeadAndTail(pre, x, post);
    assert Replace(s, name, x) == [s[0]] + Replace(s[1..], name, x);
  }

  /** a + b + c, for a non-empty a, is a's first character followed by a's rest, b and c. */
  lemma HeadAndTail(a: string, b: string, c: string)
    requires a != []
    ensures (a + b + c)[0] == a[0] && (a + b + c)[1..] == a[1..] + b + c
    ensures a + b + c == [a[0]] + (a[1..] + b + c)
  {
    assert a == [a[0]] + a[1..];
  }

  /** A key that does not occur in a text does not occur in its tail. */
  lemma AbsentTail(s: string, key: string)
    requires s != [] && !Occurs(s, key)
    ensures !Occurs(s[1..], key)
  {
    var t := s[1..];
    forall i | 0 <= i <= |t| ensures !OccursAt(t, key, i) {
      if OccursAt(t, key, i) {
        assert s[i + 1..i + 1 + |key|] == t[i..i + |key|];
        assert OccursAt(s, key, i + 1);
      }
    }
  }

  /** A word does not start inside the text before it when that text ends in a non-word
      character and does not contain it. */
  lemma NotAtStart(pre: string, name: string, post: string)
    requires pre != [] && name != [] && forall i :: 0 <= i < |name| ==> IsWordChar(name[i])
    requires !IsWordChar(pre[|pre| - 1]) && !Occurs(pre, name)
    ensures (pre + name + post)[..|name|] != name
  {
    var s := pre + name + post;
    if |pre| >= |name| {
      assert s[..|name|] == pre[0..|name|];
      assert !OccursAt(pre, name, 0);
    } else {
      assert s[|pre| - 1] == pre[|pre| - 1];
      assert s[..|name|][|pre| - 1] != name[|pre| - 1];
    }
  }

  /** A non-empty run of word characters. */
  predicate IsWord(s: string)
  {
    s != [] && forall k :: 0 <= k < |s| ==> IsWordChar(s[k])
  }

  /** Text around a token: the text before ends in a non-word character and the text after is
      empty or starts with one. */
  predicate Separated(pre: string, post: string)
  {
    pre != [] && !IsWordChar(pre[|pre| - 1]) && (post == [] || !IsWordChar(post[0]))
  }

  /** A token: word characters, the first of which may be a '$'. */
  predicate IsToken(y: string)
  {
    y != [] && (IsWordChar(y[0]) || y[0] == '$') && forall k :: 0 < k < |y| ==> IsWordChar(y[k])
  }

  /** A token without its '$'. */
  function TokenWord(y: string): string
    requires y != []
  {
    if y[0] == '$' then y[1..] else y
  }

  /** A word standing between separators is found as a whole word. */
  lemma WordBetween(pre: string, name: string, post: string)
    requires IsWord(name) && Separated(pre, post)
    ensures ContainsWord(pre + name + post, name)
  {
    var s := pre + name + post;
    assert OccursAt(s, name, |pre|) by {
      assert s[|pre|..|pre| + |name|] == name;
    }
    assert s[|pre| - 1] == pre[|pre| - 1] && s[|pre|] == name[0];
    assert s[|pre| + |name| - 1] == name[|name| - 1];
    if post != [] {
      assert s[|pre| + |name|] == post[0];
    }
    assert Boundary(s, |pre|) && Boundary(s, |pre| + |name|);
  }

  /** A token that starts with '$' is that character and the rest. */
  lemma DollarToken(pre: string, y: string, post: string)
    requires y != [] && y[0] == '$'
    ensures pre + y + post == pre + "$" + y[1..] + post
  {
    assert y == "$" + y[1..];
  }

  /** A whole-word occurrence in pre + y + post lies in pre, in post, or is the token's word. */
  lemma WordOutsideToken(pre: string, y: string, post: string, m: string, i: int)
    requires IsWord(m) && Separated(pre, post) && IsToken(y)
    requires var s := pre + y + post;
      0 <= i && OccursAt(s, m, i) && Boundary(s, i) && Boundary(s, i + |m|)
    ensures ContainsWord(pre, m) || ContainsWord(post, m) || m == TokenWord(y)
  {
    if i < |pre| {
      WordInPre(pre, y, post, m, i);
    } else if i < |pre| + |y| {
      WordInToken(pre, y, post, m, i);
    } else {
      WordInPost(pre, y, post, m, i);
    }
  }

  /** The characters of a whole-word occurrence of m at i are m's, and word characters. */
  lemma OccurrenceChars(s: string, m: string, i: int)
    requires IsWord(m) && OccursAt(s, m, i)
    ensures forall k :: i <= k < i + |m| ==> s[k] == m[k - i] && IsWordChar(s[k])
  {
    forall k | i <= k < i + |m| ensures s[k] == m[k - i] { assert s[i..i + |m|][k - i] == s[k]; }
  }

  /** An occurrence starting in pre ends before the separator and is one in pre. */
  lemma WordInPre(pre: string, y: string, post: string, m: string, i: int)
    requires IsWord(m) && Separated(pre, post) && IsToken(y)
    requires var s := pre + y + post;
      0 <= i && OccursAt(s, m, i) && Boundary(s, i) && Boundary(s, i + |m|)
    requires i < |pre|
    ensures ContainsWord(pre, m)
  {
    var s := pre + y + post;
    var e := i + |m|;
    OccurrenceChars(s, m, i);
    assert s[|pre| - 1] == pre[|pre| - 1];
    assert e < |pre|;
    assert pre[i..e] == s[i..e];
    assert i > 0 ==> pre[i - 1] == s[i - 1];
    assert pre[e] == s[e];
    assert OccursAt(pre, m, i) && Boundary(pre, i) && Boundary(pre, e);
  }

  /** An occurrence starting in the token is the token's word. */
  lemma WordInToken(pre: string, y: string, post: string, m: string, i: int)
    requires IsWord(m) && Separated(pre, post) && IsToken(y)
    requires var s := pre + y + post;
      0 <= i && OccursAt(s, m, i) && Boundary(s, i) && Boundary(s, i + |m|)
    requires |pre| <= i < |pre| + |y|
    ensures m == TokenWord(y)
  {
    var s := pre + y + post;
    var e := i + |m|;
    var b := |pre| + |y|;
    OccurrenceChars(s, m, i);
    assert !IsWordChar(s[|pre| - 1]) by { assert s[|pre| - 1] == pre[|pre| - 1]; }
    assert post != [] ==> !IsWordChar(s[b]) by {
      if post != [] { assert s[b] == post[0]; }
    }
    assert e <= b;
    var off := i - |pre|;
    var start := if y[0] == '$' then 1 else 0;
    assert forall k :: |pre| < k < b ==> IsWordChar(s[k]) by {
      forall k | |pre| < k < b ensures IsWordChar(s[k]) { assert s[k] == y[k - |pre|]; }
    }
    assert s[|pre|] == y[0];
    assert off == start;
    assert e == b;
    forall k | 0 <= k < |m| ensures m[k] == TokenWord(y)[k] { assert s[i + k] == y[off + k]; }
  }

  /** An occurrence starting after the token starts past the separator and is one in post. */
  lemma WordInPost(pre: string, y: string, post: string, m: string, i: int)
    requires IsWord(m) && Separated(pre, post) && IsToken(y)
    requires var s := pre + y + post;
      0 <= i && OccursAt(s, m, i) && Boundary(s, i) && Boundary(s, i + |m|)
    requires |pre| + |y| <= i
    ensures ContainsWord(post, m)
  {
    var s := pre + y + post;
    var e := i + |m|;
    var b := |pre| + |y|;
    OccurrenceChars(s, m, i);
    var j := i - b;
    assert s[i] == post[j];
    assert j > 0;
    assert s[i - 1] == post[j - 1];
    assert e < |s| ==> s[e] == post[j + |m|];
    assert post[j..j + |m|] == m by {
      forall k | 0 <= k < |m| ensures post[j..j + |m|][k] == m[k] { assert s[i + k] == post[j + k]; }
    }
    assert OccursAt(post, m, j) && Boundary(post, j) && Boundary(post, j + |m|);
  }

  /** A whole-word occurrence in pre remains one in pre + y + post. */
  lemma WordKeptBefore(pre: string, y: string, post: string, m: string)
    requires IsWord(m) && Separated(pre, post) && ContainsWord(pre, m)
    ensures ContainsWord(pre + y + post, m)
  {
    var i :| 0 <= i <= |pre| && OccursAt(pre, m, i) && Boundary(pre, i) && Boundary(pre, i + |m|);
    OccurrenceKeptBefore(pre, y, post, m, i);
  }

  /** The occurrence at i in pre, so. */
  lemma OccurrenceKeptBefore(pre: string, y: string, post: string, m: string, i: nat)
    requires IsWord(m) && Separated(pre, post)
    requires i <= |pre| && OccursAt(pre, m, i) && Boundary(pre, i) && Boundary(pre, i + |m|)
    ensures var s := pre + y + post;
      i <= |s| && OccursAt(s, m, i) && Boundary(s, i) && Boundary(s, i + |m|)
  {
    var s := pre + y + post;
    var e := i + |m|;
    assert pre[i..e][|m| - 1] == pre[e - 1];
    assert e < |pre|;
    assert s[i..e] == pre[i..e];
    assert i > 0 ==> s[i - 1] == pre[i - 1];
    assert s[e] == pre[e];
  }

  /** A whole-word occurrence in post remains one in pre + y + post. */
  lemma WordKeptAfter(pre: string, y: string, post: string, m: string)
    requires IsWord(m) && Separated(pre, post) && ContainsWord(post, m)
    ensures ContainsWord(pre + y + post, m)
  {
    var j :| 0 <= j <= |post| && OccursAt(post, m, j) && Boundary(post, j) && Boundary(post, j + |m|);
    OccurrenceKeptAfter(pre, y, post, m, j);
  }

  /** The occurrence at j in post, so. */
  lemma OccurrenceKeptAfter(pre: string, y: string, post: string, m: string, j: nat)
    requires IsWord(m) && Separated(pre, post)
    requires j <= |post| && OccursAt(post, m, j) && Boundary(post, j) && Boundary(post, j + |m|)
    ensures var s := pre + y + post; var b := |pre| + |y|;
      b + j <= |s| && OccursAt(s, m, b + j) && Boundary(s, b + j) && Boundary(s, b + j + |m|)
  {
    var s := pre + y + post;
    var b := |pre| + |y|;
    var e := j + |m|;
    assert post[j..e][0] == post[j];
    assert j > 0;
    assert s[b + j..b + e] == post[j..e];
    assert s[b + j - 1] == post[j - 1];
    assert e < |post| ==> s[b + e] == post[e];
  }

  /** Whether another word occurs as a whole word does not depend on the token between
      separators. */
  lemma WordAroundToken(pre: string, y: string, post: string, m: string)
    requires IsWord(m) && Separated(pre, post) && IsToken(y) && m != TokenWord(y)
    ensures ContainsWord(pre + y + post, m) <==> ContainsWord(pre, m) || ContainsWord(post, m)
  {
    var s := pre + y + post;
    if ContainsWord(s, m) {
      var i :| 0 <= i <= |s| && OccursAt(s, m, i) && Boundary(s, i) && Boundary(s, i + |m|);
      WordOutsideToken(pre, y, post, m, i);
    }
    if ContainsWord(pre, m) {
      WordKeptBefore(pre, y, post, m);
    } else if ContainsWord(post, m) {
      WordKeptAfter(pre, y, post, m);
    }
  }

  /** A lower-case hexadecimal digit: the characters HexOf and FormatHex produce, and the class
      `[0123456789abcdef]` the assembler matches operands against once they are lower-cased. */
  predicate IsHexDigit(c: char)
  {
    '0' <= c <= '9' || 'a' <= c <= 'f'
  }

  /** Every character of s is a hex digit. */
  predicate AllHex(s: string)
  {
    forall k :: 0 <= k < |s| ==> IsHexDigit(s[k])
  }

  function Pow16(n: nat): nat
  {
    if n == 0 then 1 else 16 * Pow16(n - 1)
  }

  /** HexOf writes v in lower-case hex digits, in fewer than n of them exactly when v is below
      16 to the power n - 1 ... as positional notation demands. */
  lemma {:induction false} HexOfDigits(v: nat)
    ensures forall i :: 0 <= i < |HexOf(v)| ==> IsHexDigit(HexOf(v)[i])
    ensures v < Pow16(|HexOf(v)|) && (|HexOf(v)| > 1 ==> Pow16(|HexOf(v)| - 1) <= v)
    ensures HexOf(v)[0] != '0' || v == 0
    decreases v
  {
    if v >= 16 {
      HexOfDigits(v / 16);
      var h := HexOf(v / 16);
      assert HexOf(v) == h + [HexDigit(v % 16)];
      assert HexOf(v)[0] == h[0];
    }
  }

  /** Parsing HexOf's digits gives the value back. */
  lemma {:induction false} HexOfValue(v: nat)
    ensures DigitsValue(HexOf(v), 16) == Some(v)
    decreases v
  {
    if v >= 16 {
      HexOfValue(v / 16);
      var h := HexOf(v / 16);
      assert HexOf(v)[..|HexOf(v)| - 1] == h;
    }
  }

  /** Leading zeros do not change the value of a string of digits. */
  lemma {:induction false} LeadingZerosValue(k: nat, h: string)
    requires h != []
    ensures DigitsValue(Zeros(k) + h, 16) == DigitsValue(h, 16)
    decreases |h|
  {
    var s := Zeros(k) + h;
    assert s[|s| - 1] == h[|h| - 1];
    if |h| == 1 {
      if k > 0 {
        assert s[..|s| - 1] == Zeros(k);
        ZerosValue(k);
      }
    } else {
      assert s[..|s| - 1] == Zeros(k) + h[..|h| - 1];
      LeadingZerosValue(k, h[..|h| - 1]);
    }
  }

  lemma {:induction false} ZerosValue(k: nat)
    requires k > 0
    ensures DigitsValue(Zeros(k), 16) == Some(0)
  {
    if k > 1 {
      assert Zeros(k)[..k - 1] == Zeros(k - 1);
      ZerosValue(k - 1);
    }
  }

  /** `String.format("%0<width>x", v)` writes at least one lower-case hex digit (a negative v as
      its two's complement) ... */
  lemma FormatHexDigits(v: int, width: nat)
    requires IntMin <= v <= IntMax
    ensures |FormatHex(v, width)| >= 1
    ensures forall i :: 0 <= i < |FormatHex(v, width)| ==> IsHexDigit(FormatHex(v, width)[i])
  {
    var u := if v < 0 then v + 0x1_0000_0000 else v;
    var h := HexOf(u);
    HexOfDigits(u);
    if |h| < width {
      var s := Zeros(width - |h|) + h;
      forall i | 0 <= i < |s| ensures IsHexDigit(s[i]) {
        if i >= width - |h| {
          assert s[i] == h[i - (width - |h|)];
        }
      }
    }
  }

  /** ... exactly width of them when 0 <= v is below 16 to the power width (width at least 1, as
      zero has one digit) ... */
  lemma FormatHexWidth(v: int, width: nat)
    requires 0 <= v < Pow16(width) && v <= IntMax && width >= 1
    ensures |FormatHex(v, width)| == width
  {
    var h := HexOf(v);
    HexOfDigits(v);
    if |h| > width {
      Pow16Grows(width, |h| - 1);
    }
  }

  /** ... which, for 0 <= v, Integer.parseInt in radix 16 reads back as v. */
  lemma FormatHexParses(v: int, width: nat)
    requires 0 <= v <= IntMax
    ensures ParseInt(FormatHex(v, width), 16) == Some(v)
  {
    var h := HexOf(v);
    HexOfDigits(v);
    HexOfValue(v);
    FormatHexDigits(v, width);
    var s := FormatHex(v, width);
    if |h| < width {
      LeadingZerosValue(width - |h|, h);
    }
    assert DigitsValue(s, 16) == Some(v);
    assert IsHexDigit(s[0]);
  }

  lemma {:induction false} Pow16Grows(m: nat, n: nat)
    requires m <= n
    ensures Pow16(m) <= Pow16(n)
    decreases n
  {
    if m < n {
      Pow16Grows(m, n - 1);
    }
  }
}
