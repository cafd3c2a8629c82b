/** `GetDeviceOfMount` (pkg/utils/volume_utils.go): the output of `mount | grep -w directory` is
    searched for the device that is mounted on the directory. */
module MountTable {
  import opened Text

  /** An entry of the mount table. */
  datatype Entry = Entry(device: string, dir: string, fsType: string, options: string)

  predicate IsEntry(e: Entry) {
    IsToken(e.device) && IsToken(e.dir) && IsToken(e.fsType) && IsToken(e.options)
  }

  function Parenthesised(options: string): string {
    ['('] + options + [')']
  }

  /** The line that mount prints for an entry. */
  function PrintEntry(e: Entry): string {
    e.device + [' '] + ("on" + [' '] + (e.dir + [' '] + ("type" + [' '] + (e.fsType + [' '] + Parenthesised(e.options)))))
  }

  // ----- grep -w

  predicate IsWordChar(c: char) {
    'a' <= c <= 'z' || 'A' <= c <= 'Z' || '0' <= c <= '9' || c == '_'
  }

  /** The directory as a basic regular expression: a dot stands for any character. (Directories with
      one of the other special characters are not part of this model.) */
  predicate MatchesAt(line: string, i: int, pattern: string) {
    && 0 <= i <= |line| - |pattern|
    && forall k :: 0 <= k < |pattern| ==> pattern[k] == '.' || pattern[k] == line[i + k]
  }

  /** The match neither follows nor precedes a word character. */
  predicate IsWordAt(line: string, i: int, pattern: string) {
    && MatchesAt(line, i, pattern)
    && (i > 0 ==> !IsWordChar(line[i - 1]))
    && (i + |pattern| < |line| ==> !IsWordChar(line[i + |pattern|]))
  }

  predicate HasWord(line: string, pattern: string) {
    exists i | 0 <= i <= |line| :: IsWordAt(line, i, pattern)
  }

  /** The entries whose lines grep lets through. */
  function Matching(table: seq<Entry>, pattern: string): seq<Entry> {
    if table == [] then []
    else (if HasWord(PrintEntry(table[0]), pattern) then [table[0]] else []) + Matching(table[1..], pattern)
  }

  function PrintAll(table: seq<Entry>): seq<string> {
    if table == [] then [] else [PrintEntry(table[0])] + PrintAll(table[1..])
  }

  /** What `mount | grep -w pattern` prints. */
  function MountGrep(table: seq<Entry>, pattern: string): string {
    Unlines(PrintAll(Matching(table, pattern)))
  }

  // ----- the parser

  /** GetDeviceOfMount on the output and the error output of the pipe; None for an error. */
  function GetDeviceOfMount(output: string, error: string): Option<string> {
    if error != [] then None
    else
      var lines := Split(output, '\n');
      if |lines| != 2 then None
      else
        var fields := Fields(lines[0]);
        if |fields| != 6 then None else Some(fields[0])
  }

  // ----- lemmas

  lemma SpaceThenFields(rest: string)
    ensures Fields([' '] + rest) == Fields(rest)
  {
    FieldsSkipsSpace(' ', rest);
  }

  /** One token before a space. */
  lemma TokenThenFields(w: string, rest: string)
    requires IsToken(w)
    ensures Fields(w + [' '] + rest) == [w] + Fields(rest)
  {
    assert w + [' '] + rest == w + ([' '] + rest);
    FieldsCons(w, [' '] + rest);
    SpaceThenFields(rest);
  }

  lemma LastToken(w: string)
    requires IsToken(w)
    ensures Fields(w) == [w]
  {
    assert w + [] == w;
    FieldsCons(w, []);
  }

  lemma OptionsAreToken(options: string)
    requires IsToken(options)
    ensures IsToken(Parenthesised(options))
  {
    forall c | c in Parenthesised(options) ensures !IsSpace(c) {
      assert c == '(' || c == ')' || c in options;
    }
  }

  lemma SixFields(a: string, b: string, c: string, d: string, e: string, f: string)
    requires IsToken(a) && IsToken(b) && IsToken(c) && IsToken(d) && IsToken(e) && IsToken(f)
    ensures Fields(a + [' '] + (b + [' '] + (c + [' '] + (d + [' '] + (e + [' '] + f))))) == [a, b, c, d, e, f]
  {
    hide Fields, IsToken;
    var r5 := e + [' '] + f;
    var r4 := d + [' '] + r5;
    var r3 := c + [' '] + r4;
    TokenThenFields(a, b + [' '] + r3);
    TokenThenFields(b, r3);
    TokenThenFields(c, r4);
    TokenThenFields(d, r5);
    TokenThenFields(e, f);
    LastToken(f);
  }

  /** A printed entry has six fields. */
  lemma FieldsOfEntry(e: Entry)
    requires IsEntry(e)
    ensures Fields(PrintEntry(e)) == [e.device, "on", e.dir, "type", e.fsType, Parenthesised(e.options)]
  {
    OptionsAreToken(e.options);
    assert IsToken("on") && IsToken("type");
    hide Fields, IsToken, Parenthesised;
    SixFields(e.device, "on", e.dir, "type", e.fsType, Parenthesised(e.options));
  }

  lemma TokenHasNoBreak(w: string)
    requires IsToken(w)
    ensures '\n' !in w
  {
    assert IsSpace('\n');
  }

  lemma EntryIsOneLine(e: Entry)
    requires IsEntry(e)
    ensures '\n' !in PrintEntry(e)
  {
    TokenHasNoBreak(e.device);
    TokenHasNoBreak(e.dir);
    TokenHasNoBreak(e.fsType);
    TokenHasNoBreak(e.options);
  }

  lemma {:induction false} SplitPrinted(table: seq<Entry>)
    requires forall k :: 0 <= k < |table| ==> IsEntry(table[k])
    ensures var lines := Split(Unlines(PrintAll(table)), '\n');
            |lines| == |table| + 1 && (table != [] ==> lines[0] == PrintEntry(table[0]))
  {
    PrintedLines(table);
    SplitUnlines(PrintAll(table));
  }

  lemma {:induction false} PrintedLines(table: seq<Entry>)
    requires forall k :: 0 <= k < |table| ==> IsEntry(table[k])
    ensures |PrintAll(table)| == |table| && (table != [] ==> PrintAll(table)[0] == PrintEntry(table[0]))
    ensures forall k :: 0 <= k < |table| ==> '\n' !in PrintAll(table)[k]
  {
    hide PrintEntry;
    if table == [] {
    } else {
      EntryIsOneLine(table[0]);
      PrintedLines(table[1..]);
    }
  }

  lemma {:induction false} MatchingIsFilter(table: seq<Entry>, pattern: string, e: Entry)
    ensures e in Matching(table, pattern) <==> e in table && HasWord(PrintEntry(e), pattern)
  {
    hide HasWord, PrintEntry;
    if table == [] {
    } else {
      MatchingIsFilter(table[1..], pattern, e);
      assert table == [table[0]] + table[1..];
    }
  }

  predicate IsTable(table: seq<Entry>) {
    forall k :: 0 <= k < |table| ==> IsEntry(table[k])
  }

  lemma MatchingIsTable(table: seq<Entry>, pattern: string)
    requires IsTable(table)
    ensures IsTable(Matching(table, pattern))
  {
    var found := Matching(table, pattern);
    forall k | 0 <= k < |found| ensures IsEntry(found[k]) {
      assert found[k] in found;
      MatchingIsFilter(table, pattern, found[k]);
    }
  }

  /** A device is returned if and only if exactly one line matches, and then it is that line's. */
  lemma ParserReadsTheOnlyMatch(table: seq<Entry>, pattern: string)
    requires IsTable(table)
    ensures var found := Matching(table, pattern);
            GetDeviceOfMount(MountGrep(table, pattern), []) == if |found| == 1 then Some(found[0].device) else None
  {
    hide Fields, Split, PrintEntry, Matching;
    var found := Matching(table, pattern);
    MatchingIsTable(table, pattern);
    SplitPrinted(found);
    if |found| == 1 {
      FieldsOfEntry(found[0]);
    }
  }

  /** The directory of an entry word-matches its line. */
  lemma OwnLineMatches(e: Entry)
    requires IsEntry(e)
    ensures HasWord(PrintEntry(e), e.dir)
  {
    var line := PrintEntry(e);
    var before, after := e.device + [' '] + "on" + [' '],
                         [' '] + ("type" + [' '] + (e.fsType + [' '] + Parenthesised(e.options)));
    assert line == before + e.dir + after;
    var i := |before|;
    assert line[i - 1] == ' ' && line[i + |e.dir|] == ' ';
    assert IsWordAt(line, i, e.dir);
  }

  /** For a directory that is a mount point, the parser returns the device that is mounted there or
      nothing; it returns the device if and only if no other line matches. */
  lemma MountPointIsResolved(table: seq<Entry>, e: Entry)
    requires IsTable(table) && e in table
    ensures var r := GetDeviceOfMount(MountGrep(table, e.dir), []);
            && (r.Some? ==> r.value == e.device)
            && (r.Some? <==> |Matching(table, e.dir)| == 1)
  {
    hide GetDeviceOfMount, MountGrep, HasWord, Matching;
    OwnLineMatches(e);
    MatchingIsFilter(table, e.dir, e);
    ParserReadsTheOnlyMatch(table, e.dir);
  }

  /** A directory that is no mount point can be taken for one: if the only matching line belongs to a
      directory below it, the device of that one is returned. */
  lemma ParentIsMistaken(e: Entry, parent: string, below: string)
    requires IsEntry(e) && e.dir == parent + ['/'] + below && parent != []
    ensures GetDeviceOfMount(MountGrep([e], parent), []) == Some(e.device)
  {
    var line := PrintEntry(e);
    var before, after := e.device + [' '] + "on" + [' '],
                         ['/'] + below + [' '] + ("type" + [' '] + (e.fsType + [' '] + Parenthesised(e.options)));
    assert line == before + parent + after;
    var i := |before|;
    assert line[i - 1] == ' ' && line[i + |parent|] == '/';
    assert IsWordAt(line, i, parent);
    hide PrintEntry, HasWord, GetDeviceOfMount, MountGrep;
    assert Matching([e], parent) == [e] by {
      assert HasWord(line, parent);
      assert [e][1..] == [];
    }
    ParserReadsTheOnlyMatch([e], parent);
  }

  /** A directory with a dot can be taken for another one that has some other character there. */
  lemma DotIsMistaken(e: Entry, a: string, c: char, b: string)
    requires IsEntry(e) && e.dir == a + [c] + b
    ensures GetDeviceOfMount(MountGrep([e], a + ['.'] + b), []) == Some(e.device)
  {
    var line, pattern := PrintEntry(e), a + ['.'] + b;
    var before, after := e.device + [' '] + "on" + [' '],
                         [' '] + ("type" + [' '] + (e.fsType + [' '] + Parenthesised(e.options)));
    assert line == before + e.dir + after;
    var i := |before|;
    assert line[i - 1] == ' ' && line[i + |pattern|] == ' ';
    forall k | 0 <= k < |pattern| ensures pattern[k] == '.' || pattern[k] == line[i + k] {
      assert line[i + k] == e.dir[k];
    }
    assert IsWordAt(line, i, pattern);
    hide PrintEntry, GetDeviceOfMount, MountGrep, IsWordAt;
    OneLineMatches(e, pattern, i);
  }

  lemma OneLineMatches(e: Entry, pattern: string, i: int)
    requires IsEntry(e) && IsWordAt(PrintEntry(e), i, pattern)
    ensures GetDeviceOfMount(MountGrep([e], pattern), []) == Some(e.device)
  {
    assert HasWord(PrintEntry(e), pattern);
    hide PrintEntry, HasWord, GetDeviceOfMount, MountGrep, IsWordAt;
    assert [e][1..] == [];
    ParserReadsTheOnlyMatch([e], pattern);
  }

  /** A directory is not taken for one whose name goes on with a letter, a digit or an underscore, if it
      stands nowhere else on the line. */
  lemma LongerNameIsNoMatch(e: Entry, dir: string, c: char, more: string)
    requires IsEntry(e) && e.dir == dir + [c] + more
    requires 'a' <= c <= 'z' || 'A' <= c <= 'Z' || '0' <= c <= '9' || c == '_'
    requires forall i :: i != |e.device| + 4 ==> !MatchesAt(PrintEntry(e), i, dir)
    ensures GetDeviceOfMount(MountGrep([e], dir), []) == None
  {
    var line := PrintEntry(e);
    var before, after := e.device + [' '] + "on" + [' '],
                         [c] + more + [' '] + ("type" + [' '] + (e.fsType + [' '] + Parenthesised(e.options)));
    assert line == before + dir + after;
    assert |before| == |e.device| + 4 && line[|before| + |dir|] == c;
    assert !HasWord(line, dir);
    hide PrintEntry, HasWord, GetDeviceOfMount, MountGrep, MatchesAt;
    assert [e][1..] == [];
    ParserReadsTheOnlyMatch([e], dir);
  }

  lemma SplitInTwo(s: string, c: char)
    ensures |Split(s, c)| == 2 <==> exists a, b :: c !in a && c !in b && s == a + [c] + b
    ensures |Split(s, c)| == 2 ==> c !in Split(s, c)[0] && c !in Split(s, c)[1]
                                   && s == Split(s, c)[0] + [c] + Split(s, c)[1]
  {
    var i := Index(s, c);
    if i >= 0 {
      var a, b := s[..i], s[i + 1..];
      assert s == a + [c] + b;
      SplitCons(a, c, b);
      SplitOnce(b, c);
    }
    if a, b :| c !in a && c !in b && s == a + [c] + b {
      SplitCons(a, c, b);
      SplitWithout(b, c);
    }
  }

  lemma SplitOnce(s: string, c: char)
    ensures |Split(s, c)| == 1 <==> c !in s
    ensures c !in s ==> Split(s, c) == [s]
  {
  }

  /** Exactly when a device is read from any output: there is no error output, and the output is a line of six
      fields, a newline and no further one; it is the first of them. */
  lemma DeviceExactly(output: string, error: string, device: string)
    ensures GetDeviceOfMount(output, error) == Some(device) <==>
            error == "" && exists line, rest :: '\n' !in line && '\n' !in rest && output == line + ['\n'] + rest
                             && |Fields(line)| == 6 && Fields(line)[0] == device
  {
    SplitInTwo(output, '\n');
    if line, rest :| '\n' !in line && '\n' !in rest && output == line + ['\n'] + rest
                     && |Fields(line)| == 6 && Fields(line)[0] == device {
      SplitCons(line, '\n', rest);
    }
    hide Split, Fields;
  }
}
