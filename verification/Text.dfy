/** The string operations of Go's `strings` and `bufio` packages that the driver relies on.
    A Go string is a sequence of bytes; here each byte is one `char` (with a code below 256). */
module Text {

  datatype Option<+T> = None | Some(value: T)

  /** The ASCII white space that `strings.TrimSpace` and `strings.Fields` recognise. */
  predicate IsSpace(c: char) {
    c == ' ' || '\t' <= c <= '\r'
  }

  function TrimLeft(s: string): string {
    if s != [] && IsSpace(s[0]) then TrimLeft(s[1..]) else s
  }

  function TrimRight(s: string): string {
    if s != [] && IsSpace(s[|s| - 1]) then TrimRight(s[..|s| - 1]) else s
  }

  /** strings.TrimSpace on ASCII text. */
  function TrimSpace(s: string): string {
    TrimRight(TrimLeft(s))
  }

  /** Neither end of the text is white space. */
  predicate IsTrimmed(s: string) {
    s == [] || (!IsSpace(s[0]) && !IsSpace(s[|s| - 1]))
  }

  /** strings.Index for a one-character separator: the first position, or -1. */
  function Index(s: string, c: char): (i: int)
    ensures -1 <= i < |s|
    ensures i == -1 <==> c !in s
    ensures i >= 0 ==> s[i] == c && c !in s[..i]
  {
    if s == [] then -1
    else if s[0] == c then 0
    else
      var rest := Index(s[1..], c);
      assert rest >= 0 ==> s[..rest + 1] == [s[0]] + s[1..][..rest];
      if rest == -1 then -1 else rest + 1
  }

  /** strings.HasSuffix. */
  predicate HasSuffix(s: string, suffix: string) {
    |suffix| <= |s| && s[|s| - |suffix|..] == suffix
  }

  /** `pattern` occurs in `s` at position `i`. */
  predicate OccursAt(s: string, i: int, pattern: string) {
    0 <= i <= |s| && pattern <= s[i..]
  }

  /** strings.Contains. */
  predicate Contains(s: string, pattern: string) {
    exists i | 0 <= i <= |s| :: OccursAt(s, i, pattern)
  }

  /** strings.ToLower on ASCII text. */
  function LowerChar(c: char): char {
    if 'A' <= c <= 'Z' then (c as int + 32) as char else c
  }

  function ToLower(s: string): (r: string)
    ensures |r| == |s|
    ensures forall i :: 0 <= i < |s| ==> r[i] == LowerChar(s[i])
  {
    if s == [] then [] else [LowerChar(s[0])] + ToLower(s[1..])
  }

  /** strings.Replace(s, pattern, replacement, -1) for a non-empty pattern: left to right,
      without overlap. */
  function ReplaceAll(s: string, pattern: string, replacement: string): string
    requires pattern != []
  {
    if s == [] then []
    else if pattern <= s then replacement + ReplaceAll(s[|pattern|..], pattern, replacement)
    else [s[0]] + ReplaceAll(s[1..], pattern, replacement)
  }

  /** strings.Split for a one-character separator. */
  function Split(s: string, c: char): (parts: seq<string>)
    ensures |parts| >= 1
  {
    var i := Index(s, c);
    if i < 0 then [s] else [s[..i]] + Split(s[i + 1..], c)
  }

  /** The last part of a split: what follows the last separator. */
  function LastPart(s: string, c: char): string {
    var parts := Split(s, c);
    parts[|parts| - 1]
  }

  /** The longest prefix without white space. */
  function Word(s: string): (w: string)
    ensures w <= s
    ensures forall c :: c in w ==> !IsSpace(c)
    ensures |w| < |s| ==> IsSpace(s[|w|])
  {
    if s == [] || IsSpace(s[0]) then [] else [s[0]] + Word(s[1..])
  }

  /** strings.Fields: the maximal runs of characters that are not white space. */
  function Fields(s: string): seq<string> {
    if s == [] then []
    else if IsSpace(s[0]) then Fields(s[1..])
    else
      var w := Word(s);
      [w] + Fields(s[|w|..])
  }

  /** A token a tool prints between blanks. */
  predicate IsToken(w: string) {
    w != [] && forall c :: c in w ==> !IsSpace(c)
  }

  /** bufio.ScanLines drops one carriage return at the end of a line. */
  function DropCR(line: string): string {
    if line != [] && line[|line| - 1] == '\r' then line[..|line| - 1] else line
  }

  /** The size of a bufio.Scanner's buffer: a line has to fit into it together with its newline. */
  const MAX_LINE: nat := 64 * 1024

  /** The lines a bufio.Scanner delivers: a last line without a newline counts when it is not
      empty, and a line that is too long ends the scan. */
  function ScanLines(text: string): seq<string> {
    if text == [] then []
    else
      var i := Index(text, '\n');
      if (if i < 0 then |text| else i) >= MAX_LINE then []
      else if i < 0 then [DropCR(text)]
      else [DropCR(text[..i])] + ScanLines(text[i + 1..])
  }

  /** Lines as a tool prints them: each one ends in a newline. */
  function Unlines(lines: seq<string>): string {
    if lines == [] then [] else lines[0] + ['\n'] + Unlines(lines[1..])
  }

  // ----- lemmas

  lemma IndexSkips(a: string, c: char, b: string)
    requires c !in a
    ensures Index(a + [c] + b, c) == |a|
  {
    var s := a + [c] + b;
    var i := Index(s, c);
    assert s[|a|] == c;
    assert s[..|a|] == a;
  }

  lemma ScanLinesCons(line: string, rest: string)
    requires '\n' !in line && |line| < MAX_LINE
    ensures ScanLines(line + ['\n'] + rest) == [DropCR(line)] + ScanLines(rest)
  {
    IndexSkips(line, '\n', rest);
    var text := line + ['\n'] + rest;
    assert text[..|line|] == line && text[|line| + 1..] == rest;
  }

  lemma SplitCons(part: string, c: char, rest: string)
    requires c !in part
    ensures Split(part + [c] + rest, c) == [part] + Split(rest, c)
  {
    IndexSkips(part, c, rest);
    var text := part + [c] + rest;
    assert text[..|part|] == part && text[|part| + 1..] == rest;
  }

  lemma {:induction false} TrimLeftDropsBlanks(blanks: string, s: string)
    requires forall c :: c in blanks ==> IsSpace(c)
    ensures TrimLeft(blanks + s) == TrimLeft(s)
  {
    if blanks == [] {
      assert blanks + s == s;
    } else {
      assert (blanks + s)[1..] == blanks[1..] + s;
      TrimLeftDropsBlanks(blanks[1..], s);
    }
  }

  lemma {:induction false} TrimLeftShape(s: string)
    ensures |TrimLeft(s)| <= |s| && TrimLeft(s) == s[|s| - |TrimLeft(s)|..]
    ensures forall c :: c in s[..|s| - |TrimLeft(s)|] ==> IsSpace(c)
    ensures TrimLeft(s) != [] ==> !IsSpace(TrimLeft(s)[0])
  {
    if s != [] && IsSpace(s[0]) {
      TrimLeftShape(s[1..]);
      var k := |s| - |TrimLeft(s)|;
      assert s[..k] == [s[0]] + s[1..][..k - 1];
    }
  }

  /** White space at the end of a text does not survive trimming. */
  lemma TrimSpaceDropsLast(s: string, c: char)
    requires IsSpace(c)
    ensures TrimSpace(s + [c]) == TrimSpace(s)
  {
    TrimLeftShape(s);
    var k := |s| - |TrimLeft(s)|;
    var body := TrimLeft(s);
    assert s + [c] == s[..k] + (body + [c]);
    TrimLeftDropsBlanks(s[..k], body + [c]);
    if body == [] {
      assert body + [c] == [c];
      assert TrimLeft([c]) == TrimLeft([]);
    } else {
      assert (body + [c])[..|body|] == body;
    }
  }

  lemma TrimSpaceDropCR(line: string)
    ensures TrimSpace(DropCR(line)) == TrimSpace(line)
  {
    if line != [] && line[|line| - 1] == '\r' {
      assert line == DropCR(line) + ['\r'];
      TrimSpaceDropsLast(DropCR(line), '\r');
    }
  }

  lemma {:induction false} TrimRightShape(s: string)
    ensures TrimRight(s) <= s
    ensures TrimRight(s) != [] ==> !IsSpace(TrimRight(s)[|TrimRight(s)| - 1])
  {
    if s != [] && IsSpace(s[|s| - 1]) {
      TrimRightShape(s[..|s| - 1]);
    }
  }

  /** Trimming yields a trimmed text that is no longer than the original. */
  lemma TrimSpaceTrims(s: string)
    ensures IsTrimmed(TrimSpace(s)) && |TrimSpace(s)| <= |s|
    ensures IsTrimmed(s) ==> TrimSpace(s) == s
  {
    TrimLeftShape(s);
    TrimRightShape(TrimLeft(s));
  }

  /** White space around a trimmed text does not matter. */
  lemma {:induction false} TrimSpaceOf(before: string, s: string, after: string)
    requires (forall c :: c in before ==> IsSpace(c)) && (forall c :: c in after ==> IsSpace(c)) && IsTrimmed(s)
    ensures TrimSpace(before + s + after) == s
    decreases |after|
  {
    if after == [] {
      assert before + s + after == before + s;
      TrimLeftDropsBlanks(before, s);
      TrimSpaceTrims(s);
    } else {
      var front, c := after[..|after| - 1], after[|after| - 1];
      assert before + s + after == (before + s + front) + [c];
      TrimSpaceDropsLast(before + s + front, c);
      TrimSpaceOf(before, s, front);
    }
  }

  lemma FieldsSkipsSpace(c: char, rest: string)
    requires IsSpace(c)
    ensures Fields([c] + rest) == Fields(rest)
  {
    assert ([c] + rest)[1..] == rest;
  }

  lemma {:induction false} WordOf(w: string, rest: string)
    requires forall c :: c in w ==> !IsSpace(c)
    requires rest == [] || IsSpace(rest[0])
    ensures Word(w + rest) == w
  {
    if w == [] {
      assert w + rest == rest;
    } else {
      assert (w + rest)[1..] == w[1..] + rest;
      WordOf(w[1..], rest);
    }
  }

  /** A token that is followed by white space, or by nothing, is the first field. */
  lemma FieldsCons(w: string, rest: string)
    requires IsToken(w)
    requires rest == [] || IsSpace(rest[0])
    ensures Fields(w + rest) == [w] + Fields(rest)
  {
    WordOf(w, rest);
    assert (w + rest)[|w|..] == rest;
    assert (w + rest)[0] == w[0];
  }

  lemma {:induction false} SplitWithout(s: string, c: char)
    requires c !in s
    ensures Split(s, c) == [s]
  {
  }

  /** Splitting printed lines at newlines gives them back, and an empty part at the end. */
  lemma {:induction false} SplitUnlines(lines: seq<string>)
    requires forall k :: 0 <= k < |lines| ==> '\n' !in lines[k]
    ensures Split(Unlines(lines), '\n') == lines + [[]]
  {
    if lines == [] {
      SplitWithout([], '\n');
    } else {
      var head, tail := lines[0], lines[1..];
      assert lines == [head] + tail;
      SplitUnlines(tail);
      hide Split;
      calc {
        Split(Unlines(lines), '\n');
      ==
        Split(head + ['\n'] + Unlines(tail), '\n');
      ==  { SplitCons(head, '\n', Unlines(tail)); }
        [head] + Split(Unlines(tail), '\n');
      ==
        [head] + (tail + [[]]);
      ==
        lines + [[]];
      }
    }
  }
}
