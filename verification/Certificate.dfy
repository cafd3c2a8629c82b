/** `readCertificate` (pkg/utils/rest_utils.go): a PEM bundle whose line breaks were turned into
    spaces on the way is restored by three replacements. */
module Certificate {
  import opened Text

  const MARK := "CERTIFICATE"

  /** What the driver makes of the contents of the certificate file. */
  function ReadCertificate(data: string): string {
    var hidden := ReplaceAll(data, " CERTIFICATE", ".CERTIFICATE");
    var broken := ReplaceAll(hidden, " ", "\n");
    ReplaceAll(broken, ".CERTIFICATE", " CERTIFICATE")
  }

  /** How a bundle reaches the file: every line break has become a space. */
  function Flatten(text: string): string {
    ReplaceAll(text, "\n", " ")
  }

  /** MARK stands at position i. */
  predicate Marked(s: string, i: int) {
    0 <= i <= |s| && MARK <= s[i..]
  }

  /** The character that the three replacements leave at position i: it depends on the character
      there and on whether MARK follows. */
  function Restored(s: string, i: nat): char
    requires i < |s|
  {
    if s[i] == ' ' then (if Marked(s, i + 1) then ' ' else '\n')
    else if s[i] == '.' && Marked(s, i + 1) then ' '
    else s[i]
  }

  /** The characters that the replacements read or write. */
  predicate IsBlank(c: char) {
    c == ' ' || c == '.' || c == '\n'
  }

  // ----- bundles (sections 3 and 5.1 of RFC 7468)

  const BEGIN := "-----BEGIN CERTIFICATE-----"
  const END := "-----END CERTIFICATE-----"

  predicate HasNoBlank(s: string) {
    forall i :: 0 <= i < |s| ==> !IsBlank(s[i])
  }

  /** The lines of a bundle; each block is given by its body lines. */
  function BundleLines(blocks: seq<seq<string>>): seq<string> {
    if blocks == [] then [] else [BEGIN] + blocks[0] + [END] + BundleLines(blocks[1..])
  }

  function Bundle(blocks: seq<seq<string>>): string {
    Unlines(BundleLines(blocks))
  }

  /** The lines of the base64 bodies have no blank. */
  predicate WellFormed(blocks: seq<seq<string>>) {
    forall b :: 0 <= b < |blocks| ==> forall k :: 0 <= k < |blocks[b]| ==> HasNoBlank(blocks[b][k])
  }

  /** Some line begins like the label. */
  predicate HasMarkedLine(lines: seq<string>) {
    exists k :: 0 <= k < |lines| && MARK <= lines[k]
  }

  /** No base64 body has such a line. */
  predicate NoMarkedBody(blocks: seq<seq<string>>) {
    forall b :: 0 <= b < |blocks| ==> !HasMarkedLine(blocks[b])
  }

  // ----- a replacement of one character in context

  /** c before w becomes d. */
  function Exchange(s: string, w: string, c: char, d: char): (r: string)
    ensures |r| == |s|
    ensures forall i :: 0 <= i < |s| ==> r[i] == if s[i] == c && w <= s[i + 1..] then d else s[i]
  {
    if s == [] then []
    else [if s[0] == c && w <= s[1..] then d else s[0]] + Exchange(s[1..], w, c, d)
  }

  lemma ExchangeSkips(u: string, t: string, w: string, c: char, d: char)
    requires c !in u
    ensures Exchange(u + t, w, c, d) == u + Exchange(t, w, c, d)
  {
    hide Exchange;
    var ut := u + t;
    var whole, parts := Exchange(ut, w, c, d), u + Exchange(t, w, c, d);
    forall i | 0 <= i < |ut| ensures whole[i] == parts[i] {
      if i >= |u| {
        assert ut[i + 1..] == t[i - |u| + 1..];
      }
    }
  }

  /** A left-to-right replacement of c + w by d + w, where w does not contain c, changes c wherever
      w follows. */
  lemma {:induction false} ReplaceIsExchange(s: string, w: string, c: char, d: char)
    requires c !in w
    ensures ReplaceAll(s, [c] + w, [d] + w) == Exchange(s, w, c, d)
    decreases |s|
  {
    var pattern := [c] + w;
    if s == [] {
    } else if pattern <= s {
      var t := s[|pattern|..];
      assert s[0] == c && s[1..] == w + t;
      ExchangeSkips(w, t, w, c, d);
      ReplaceIsExchange(t, w, c, d);
    } else {
      assert s[0] == c && w <= s[1..] ==> pattern <= s;
      ReplaceIsExchange(s[1..], w, c, d);
    }
  }

  /** The texts differ at most where both have a blank. */
  predicate SameLetters(s: string, t: string) {
    |s| == |t| && forall i :: 0 <= i < |s| ==> s[i] == t[i] || (IsBlank(s[i]) && IsBlank(t[i]))
  }

  lemma MarkHasNoBlank()
    ensures forall i :: 0 <= i < |MARK| ==> !IsBlank(MARK[i])
    ensures ' ' !in MARK && '.' !in MARK && '\n' !in MARK
  {
  }

  lemma SameMarks(s: string, t: string, i: int)
    requires SameLetters(s, t)
    ensures Marked(s, i) <==> Marked(t, i)
  {
    MarkHasNoBlank();
    hide *;
    MarkCarriesOver(s, t, i);
    assert SameLetters(t, s) by { SameLettersSymmetric(s, t); }
    MarkCarriesOver(t, s, i);
  }

  lemma SameLettersSymmetric(s: string, t: string)
    requires SameLetters(s, t)
    ensures SameLetters(t, s)
  {
  }

  lemma MarkCarriesOver(s: string, t: string, i: int)
    requires SameLetters(s, t)
    ensures Marked(s, i) ==> Marked(t, i)
  {
    if Marked(s, i) {
      MarkHasNoBlank();
      var m := MARK;
      assert forall k :: 0 <= k < |m| ==> s[i..][k] == m[k];
      assert forall k :: 0 <= k < |m| ==> t[i + k] == m[k] by {
        forall k | 0 <= k < |m| ensures t[i + k] == m[k] { assert s[i + k] == s[i..][k]; }
      }
      assert t[i..][..|m|] == m;
    }
  }

  /** The three scans, each as an exchange. */
  lemma ThreeExchanges(s: string)
    ensures ReadCertificate(s) == Exchange(Exchange(Exchange(s, MARK, ' ', '.'), [], ' ', '\n'), MARK, '.', ' ')
  {
    hide ReplaceAll, Exchange;
    MarkHasNoBlank();
    assert " CERTIFICATE" == [' '] + MARK && ".CERTIFICATE" == ['.'] + MARK;
    assert " " == [' '] + [] && "\n" == ['\n'] + [];
    var hidden := Exchange(s, MARK, ' ', '.');
    ReplaceIsExchange(s, MARK, ' ', '.');
    ReplaceIsExchange(hidden, [], ' ', '\n');
    ReplaceIsExchange(Exchange(hidden, [], ' ', '\n'), MARK, '.', ' ');
  }

  /** The three scans together are one map that keeps the length. */
  lemma RestoresPointwise(s: string)
    ensures |ReadCertificate(s)| == |s|
    ensures forall i :: 0 <= i < |s| ==> ReadCertificate(s)[i] == Restored(s, i)
  {
    ThreeExchanges(s);
    hide ReadCertificate;
    var hidden := Exchange(s, MARK, ' ', '.');
    var broken := Exchange(hidden, [], ' ', '\n');
    assert SameLetters(s, hidden) && SameLetters(s, broken);
    forall i | 0 <= i < |s|
      ensures ReadCertificate(s)[i] == Restored(s, i)
    {
      SameMarks(s, hidden, i + 1);
      SameMarks(s, broken, i + 1);
    }
  }

  /** Restoring twice is restoring once, on every input. */
  lemma RestoringIsIdempotent(s: string)
    ensures ReadCertificate(ReadCertificate(s)) == ReadCertificate(s)
  {
    hide ReadCertificate, Marked;
    var t := ReadCertificate(s);
    RestoresPointwise(s);
    RestoresPointwise(t);
    assert SameLetters(s, t);
    forall i | 0 <= i < |s| ensures Restored(t, i) == t[i] {
      SameMarks(s, t, i + 1);
    }
  }

  /** A text that the restoration leaves alone: no space except before MARK, no dot before it. */
  predicate IsRestored(s: string) {
    forall i :: 0 <= i < |s| ==> (s[i] == ' ' ==> Marked(s, i + 1)) && (s[i] == '.' ==> !Marked(s, i + 1))
  }

  /** No line but the first begins with MARK. */
  predicate NoBreakBeforeMark(s: string) {
    forall i :: 0 <= i < |s| && s[i] == '\n' ==> !Marked(s, i + 1)
  }

  /** The texts that are left unchanged, exactly. */
  lemma FixedPoints(s: string)
    ensures ReadCertificate(s) == s <==> IsRestored(s)
  {
    hide ReadCertificate, Marked;
    RestoresPointwise(s);
    if IsRestored(s) {
      assert forall i :: 0 <= i < |s| ==> Restored(s, i) == s[i];
    } else {
      var i :| 0 <= i < |s| && !((s[i] == ' ' ==> Marked(s, i + 1)) && (s[i] == '.' ==> !Marked(s, i + 1)));
      assert ReadCertificate(s)[i] == Restored(s, i) != s[i];
    }
  }

  lemma FlattenPointwise(s: string)
    ensures |Flatten(s)| == |s|
    ensures forall i :: 0 <= i < |s| ==> Flatten(s)[i] == if s[i] == '\n' then ' ' else s[i]
  {
    assert "\n" == ['\n'] + [] && " " == [' '] + [];
    ReplaceIsExchange(s, [], '\n', ' ');
  }

  /** Restoring undoes flattening on exactly the texts that are restored already and have no line
      break before MARK. */
  lemma RecoverableTexts(s: string)
    ensures ReadCertificate(Flatten(s)) == s <==> IsRestored(s) && NoBreakBeforeMark(s)
  {
    hide ReadCertificate, Flatten, Marked;
    var t := Flatten(s);
    FlattenPointwise(s);
    RestoresPointwise(t);
    assert SameLetters(s, t);
    forall i | 0 <= i < |s|
      ensures Restored(t, i) == s[i] <==>
              && (s[i] == ' ' ==> Marked(s, i + 1)) && (s[i] == '.' ==> !Marked(s, i + 1))
              && (s[i] == '\n' ==> !Marked(s, i + 1))
    {
      SameMarks(s, t, i + 1);
    }
    if ReadCertificate(t) == s {
      assert forall i :: 0 <= i < |s| ==> Restored(t, i) == s[i];
    } else {
      var i :| 0 <= i < |s| && ReadCertificate(t)[i] != s[i];
    }
  }

  // ----- texts made of lines

  /** A line in which every space, and no dot, is followed by MARK. */
  predicate IsCleanLine(line: string) {
    '\n' !in line && IsRestored(line)
  }

  /** Whether MARK stands at a position of a line does not depend on what follows the line. */
  lemma MarkWithinLine(line: string, rest: string, i: int)
    requires 0 <= i <= |line|
    ensures Marked(line + ['\n'] + rest, i) <==> Marked(line, i)
  {
    MarkHasNoBlank();
    var text := line + ['\n'] + rest;
    var m := MARK;
    assert text[i..] == line[i..] + ['\n'] + rest;
    if Marked(text, i) {
      forall j | i <= j < i + |m| ensures text[j] != '\n' {
        assert text[j] == text[i..][j - i] == m[j - i];
      }
      assert text[|line|] == '\n';
      assert line[i..][..|m|] == text[i..][..|m|];
    }
    assert Marked(line, i) ==> m <= line[i..] <= text[i..];
  }

  lemma MarkBeyondLine(line: string, rest: string, i: int)
    requires 0 <= i <= |rest|
    ensures Marked(line + ['\n'] + rest, |line| + 1 + i) <==> Marked(rest, i)
  {
    assert (line + ['\n'] + rest)[|line| + 1 + i..] == rest[i..];
  }

  lemma {:induction false} UnlinesOfCleanLines(lines: seq<string>)
    requires forall k :: 0 <= k < |lines| ==> IsCleanLine(lines[k])
    ensures IsRestored(Unlines(lines))
    ensures NoBreakBeforeMark(Unlines(lines)) <==> forall k :: 1 <= k < |lines| ==> !(MARK <= lines[k])
  {
    if lines == [] {
    } else {
      var line, tail := lines[0], lines[1..];
      var rest := Unlines(tail);
      UnlinesOfCleanLines(tail);
      var text := line + ['\n'] + rest;
      assert IsCleanLine(line) && Unlines(lines) == text;
      hide Marked, Unlines;
      forall i | 0 <= i < |text|
        ensures (text[i] == ' ' ==> Marked(text, i + 1)) && (text[i] == '.' ==> !Marked(text, i + 1))
        ensures i < |line| ==> text[i] != '\n'
        ensures i > |line| ==> text[i] == rest[i - |line| - 1] && (Marked(text, i + 1) <==> Marked(rest, i - |line|))
      {
        if i < |line| {
          MarkWithinLine(line, rest, i + 1);
        } else if i > |line| {
          MarkBeyondLine(line, rest, i - |line|);
        }
      }
      MarkBeyondLine(line, rest, 0);
      FirstLineMarked(tail);
      BreaksOfText(line, rest);
      assert forall k :: 1 <= k < |lines| ==> lines[k] == tail[k - 1];
    }
  }

  lemma FirstLineMarked(lines: seq<string>)
    requires forall k :: 0 <= k < |lines| ==> IsCleanLine(lines[k])
    ensures Marked(Unlines(lines), 0) <==> lines != [] && MARK <= lines[0]
  {
    if lines != [] {
      MarkWithinLine(lines[0], Unlines(lines[1..]), 0);
    }
  }

  lemma BreaksOfText(line: string, rest: string)
    requires '\n' !in line
    ensures NoBreakBeforeMark(line + ['\n'] + rest) <==> !Marked(rest, 0) && NoBreakBeforeMark(rest)
  {
    hide Marked;
    var text := line + ['\n'] + rest;
    MarkBeyondLine(line, rest, 0);
    forall i | 0 <= i < |rest|
      ensures text[|line| + 1 + i] == rest[i] && (Marked(text, |line| + 1 + i + 1) <==> Marked(rest, i + 1))
    {
      MarkBeyondLine(line, rest, i + 1);
    }
    if NoBreakBeforeMark(text) {
      assert text[|line|] == '\n';
      forall i | 0 <= i < |rest| && rest[i] == '\n' ensures !Marked(rest, i + 1) {
        assert text[|line| + 1 + i] == '\n';
      }
    } else {
      var i :| 0 <= i < |text| && text[i] == '\n' && Marked(text, i + 1);
      if i > |line| {
        assert rest[i - |line| - 1] == '\n';
      }
    }
  }

  lemma LabelLine(before: string, after: string)
    requires HasNoBlank(before) && HasNoBlank(after)
    ensures IsCleanLine(before + [' '] + MARK + after)
  {
    MarkHasNoBlank();
    var line := before + [' '] + MARK + after;
    var n := |before|;
    assert line[n + 1..] == MARK + after;
    assert forall i :: 0 <= i < |line| && i != n ==> !IsBlank(line[i]);
  }

  lemma BoundaryLines()
    ensures IsCleanLine(BEGIN) && IsCleanLine(END) && !(MARK <= BEGIN) && !(MARK <= END)
  {
    assert BEGIN == "-----BEGIN" + [' '] + MARK + "-----";
    assert END == "-----END" + [' '] + MARK + "-----";
    assert MARK[0] == 'C' && BEGIN[0] == '-' && END[0] == '-';
    hide IsCleanLine;
    LabelLine("-----BEGIN", "-----");
    LabelLine("-----END", "-----");
  }

  lemma MarkedLineOfConcat(a: seq<string>, b: seq<string>)
    ensures HasMarkedLine(a + b) <==> HasMarkedLine(a) || HasMarkedLine(b)
  {
    var ab := a + b;
    if k :| 0 <= k < |ab| && MARK <= ab[k] {
      assert if k < |a| then MARK <= a[k] else MARK <= b[k - |a|];
    }
    if k :| 0 <= k < |a| && MARK <= a[k] { assert ab[k] == a[k]; }
    if k :| 0 <= k < |b| && MARK <= b[k] { assert ab[|a| + k] == b[k]; }
  }

  lemma NotMarked(line: string)
    requires !(MARK <= line)
    ensures !HasMarkedLine([line])
  {
  }

  lemma CleanBody(body: seq<string>)
    requires forall k :: 0 <= k < |body| ==> HasNoBlank(body[k])
    ensures forall k :: 0 <= k < |body| ==> IsCleanLine(body[k])
  {
  }

  lemma {:induction false} LinesOfBundle(blocks: seq<seq<string>>)
    requires WellFormed(blocks)
    ensures var lines := BundleLines(blocks);
            && (forall k :: 0 <= k < |lines| ==> IsCleanLine(lines[k]))
            && (HasMarkedLine(lines) <==> !NoMarkedBody(blocks))
            && (lines != [] ==> !(MARK <= lines[0]))
  {
    BoundaryLines();
    assert !HasMarkedLine([]);
    hide IsRestored, HasMarkedLine;
    if blocks == [] {
    } else {
      var body, tail := blocks[0], blocks[1..];
      LinesOfBundle(tail);
      var rest := BundleLines(tail);
      CleanBody(body);
      NotMarked(BEGIN);
      NotMarked(END);
      MarkedLineOfConcat([BEGIN], body);
      MarkedLineOfConcat([BEGIN] + body, [END]);
      MarkedLineOfConcat([BEGIN] + body + [END], rest);
      assert forall b :: 0 <= b < |tail| ==> tail[b] == blocks[b + 1];
      assert NoMarkedBody(blocks) <==> !HasMarkedLine(body) && NoMarkedBody(tail) by {
        if !HasMarkedLine(body) && NoMarkedBody(tail) {
          forall b | 0 <= b < |blocks| ensures !HasMarkedLine(blocks[b]) {
            if b > 0 { assert !HasMarkedLine(tail[b - 1]); }
          }
        }
      }
    }
  }

  /** A bundle of any number of blocks survives being flattened and read if and only if no line of
      its base64 bodies begins with MARK. */
  lemma BundleRecovery(blocks: seq<seq<string>>)
    requires WellFormed(blocks)
    ensures ReadCertificate(Flatten(Bundle(blocks))) == Bundle(blocks) <==> NoMarkedBody(blocks)
  {
    hide ReadCertificate, Flatten, NoMarkedBody, WellFormed, Unlines, IsCleanLine, BundleLines;
    LinesOfBundle(blocks);
    UnlinesOfCleanLines(BundleLines(blocks));
    RecoverableTexts(Bundle(blocks));
  }

  /** A bundle that was not flattened is left as it is. */
  lemma IntactBundle(blocks: seq<seq<string>>)
    requires WellFormed(blocks)
    ensures ReadCertificate(Bundle(blocks)) == Bundle(blocks)
  {
    hide ReadCertificate, WellFormed, Unlines, IsCleanLine;
    LinesOfBundle(blocks);
    UnlinesOfCleanLines(BundleLines(blocks));
    FixedPoints(Bundle(blocks));
  }
}
