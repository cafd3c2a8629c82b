/** The driver's configuration file: the setup script prints it
    (cmd/flexplugin/setup-power-openstack-k8s-volume-flex.sh) and `loadConfigFile` turns it into
    environment variables (pkg/utils/rest_utils.go). */
module Config {
  import opened Text
  import opened Base64

  type Variables = map<string, string>

  // ----- reading: what one line, and a whole file, does to the environment

  /** os.Setenv refuses an empty name, '=' or NUL in the name, and NUL in the value. */
  predicate IsSettable(key: string, val: string) {
    key != [] && '=' !in key && '\0' !in key && '\0' !in val
  }

  /** The assignment that a line of the file asks for. */
  function Assignment(line: string): Option<(string, string)> {
    var i := Index(line, '=');
    if i <= 0 then None
    else
      var key, val := TrimSpace(line[..i]), TrimSpace(line[i + 1..]);
      if HasSuffix(key, "_ENC") then Some((key[..|key| - 4], TrimSpace(Decode(val).bytes)))
      else Some((key, val))
  }

  function Set(vars: Variables, key: string, val: string): Variables {
    if IsSettable(key, val) then vars[key := val] else vars
  }

  function ApplyLine(vars: Variables, line: string): Variables {
    match Assignment(line)
    case None => vars
    case Some(kv) => Set(vars, kv.0, kv.1)
  }

  function LoadLines(vars: Variables, lines: seq<string>): Variables
    decreases |lines|
  {
    if lines == [] then vars else LoadLines(ApplyLine(vars, lines[0]), lines[1..])
  }

  /** The environment after the driver has read a file with this text. */
  function Load(vars: Variables, text: string): Variables {
    LoadLines(vars, ScanLines(text))
  }

  /** The environment of the driver process. */
  class Environment {
    var vars: Variables

    constructor (vars: Variables)
      ensures this.vars == vars
    {
      this.vars := vars;
    }

    method Setenv(key: string, val: string) returns (ok: bool)
      modifies this
      ensures ok <==> key != "" && '=' !in key && '\0' !in key && '\0' !in val
      ensures vars == if ok then old(vars)[key := val] else old(vars)
    {
      ok := key != [] && '=' !in key && '\0' !in key && '\0' !in val;
      if ok {
        vars := vars[key := val];
      }
    }

    /** loadConfigFile; `file` is None when the file does not exist. Errors of the decoder and of
        Setenv are dropped. */
    method LoadConfigFile(file: Option<string>)
      modifies this
      ensures vars == if file.None? then old(vars) else Load(old(vars), file.value)
    {
      if file.Some? {
        var lines := ScanLines(file.value);
        var n := 0;
        while n < |lines|
          invariant 0 <= n <= |lines|
          invariant LoadLines(vars, lines[n..]) == LoadLines(old(vars), lines)
        {
          var line := lines[n];
          var index := Index(line, '=');
          if index > 0 {
            var key, val := TrimSpace(line[..index]), TrimSpace(line[index + 1..]);
            if HasSuffix(key, "_ENC") {
              var decoded := Decode(val);
              key, val := key[..|key| - 4], TrimSpace(decoded.bytes);
            }
            var _ := Setenv(key, val);
          }
          assert lines[n..][1..] == lines[n + 1..];
          n := n + 1;
        }
      }
    }
  }

  // ----- printing

  /** What the setup container finds in its own environment. */
  datatype Settings = Settings(
    authUrl: string,
    username: string,
    password: string,
    domainName: string,
    projectName: string,
    caCert: string,
    prefix: string)

  /** base64 breaks its output after 76 symbols; the command substitution around it drops the
      final newline. */
  function Wrap(symbols: string): string {
    if |symbols| <= 76 then symbols else symbols[..76] + ['\n'] + Wrap(symbols[76..])
  }

  function Line(key: string, val: string): string {
    key + ['='] + val + ['\n']
  }

  function EncodedPassword(password: string): string
    requires IsPrintable(password)
  {
    Wrap(Encode(password + ['\n']))
  }

  function HereDocument(s: Settings): string
    requires IsPrintable(s.password)
  {
    Line("OS_AUTH_URL", s.authUrl)
    + (Line("OS_USERNAME", s.username)
    + (Line("OS_PASSWORD_ENC", EncodedPassword(s.password))
    + (Line("OS_DOMAIN_NAME", s.domainName)
    + Line("OS_PROJECT_NAME", s.projectName))))
  }

  function PluginDir(): string {
    "/usr/libexec/kubernetes/" + "kubelet-plugins/volume/" + "exec/ibm~"
  }

  function CertificatePath(prefix: string): string {
    var driver := prefix + "-volume-flex";
    PluginDir() + driver + "/" + driver + ".crt"
  }

  /** The whole file. */
  function PrintConfig(s: Settings): string
    requires IsPrintable(s.password)
  {
    HereDocument(s) + if s.caCert == [] then [] else Line("OS_CACERT", CertificatePath(s.prefix))
  }

  /** The configuration file that the setup script writes. */
  class ConfFile {
    var text: string

    method Write(s: Settings)
      requires IsPrintable(s.password)
      modifies this
      ensures text == PrintConfig(s)
    {
      text := HereDocument(s);
      if s.caCert != [] {
        text := text + Line("OS_CACERT", CertificatePath(s.prefix));
      }
    }
  }

  // ----- what the round trip keeps

  /** The characters echo prints as they are. */
  predicate IsPrintable(s: string) {
    forall i :: 0 <= i < |s| ==> ' ' <= s[i] <= '~'
  }

  /** A value that fits on a line of the file and into an environment variable. */
  predicate IsOneLine(s: string) {
    '\n' !in s && '\0' !in s
  }

  /** The text without the white space around it begins and ends with ASCII characters, so that
      trimming does not come to white space beyond ASCII. */
  predicate HasAsciiEnds(s: string) {
    var t := TrimSpace(s);
    t == [] || (t[0] as int < 128 && t[|t| - 1] as int < 128)
  }

  /** The line is short enough for the scanner. */
  predicate FitsOnLine(key: string, val: string) {
    |key| + 1 + |val| < MAX_LINE
  }

  predicate IsWritable(key: string, val: string) {
    IsOneLine(val) && HasAsciiEnds(val) && FitsOnLine(key, val)
  }

  predicate Writable(s: Settings) {
    && IsPrintable(s.password)
    && IsWritable("OS_AUTH_URL", s.authUrl) && IsWritable("OS_USERNAME", s.username)
    && IsWritable("OS_DOMAIN_NAME", s.domainName) && IsWritable("OS_PROJECT_NAME", s.projectName)
    && IsOneLine(s.prefix) && (s.caCert != [] ==> FitsOnLine("OS_CACERT", CertificatePath(s.prefix)))
  }

  /** The third byte of a group becomes a symbol on which the two alphabets differ. */
  predicate IsOffending(c: char) {
    c == '>' || c == '?' || c == '~'
  }

  /** The length of the longest run of whole three-byte groups at the head of the password none of
      which ends in an offending byte; all of it when there is no such group. */
  function SafeLength(password: string): (n: nat)
    ensures n <= |password|
  {
    if |password| < 3 then |password|
    else if IsOffending(password[2]) then 0
    else 3 + SafeLength(password[3..])
  }

  /** The first line of the wrapped output holds 57 bytes. */
  function RecoveredLength(password: string): (n: nat)
    ensures n <= |password|
  {
    if SafeLength(password) <= 57 then SafeLength(password) else 57
  }

  function LastLine(symbols: string): string {
    if |symbols| <= 76 then symbols else LastLine(symbols[76..])
  }

  /** A continuation line is read as an assignment when it carries padding. */
  function StrayVariable(vars: Variables, symbols: string): Variables {
    var last := LastLine(symbols);
    var i := Index(last, '=');
    if i < 0 then vars else vars[last[..i] := last[i + 1..]]
  }

  /** The name of the variable that such a line sets. */
  function StrayName(password: string): Option<string>
    requires IsPrintable(password)
  {
    if |password| < 57 then None
    else
      var last := LastLine(Encode((password + ['\n'])[57..]));
      var i := Index(last, '=');
      if i < 0 then None else Some(last[..i])
  }

  function AfterPassword(vars: Variables, password: string): Variables
    requires IsPrintable(password)
  {
    var own := vars["OS_PASSWORD" := TrimSpace(password[..RecoveredLength(password)])];
    if |password| < 57 then own
    else StrayVariable(own, Encode((password + ['\n'])[57..]))
  }

  /** The environment the driver ends up with. */
  function Recovered(vars: Variables, s: Settings): Variables
    requires IsPrintable(s.password)
  {
    var v0 := vars["OS_AUTH_URL" := TrimSpace(s.authUrl)]["OS_USERNAME" := TrimSpace(s.username)];
    var v1 := AfterPassword(v0, s.password);
    var v2 := v1["OS_DOMAIN_NAME" := TrimSpace(s.domainName)]
                ["OS_PROJECT_NAME" := TrimSpace(s.projectName)];
    if s.caCert == [] then v2 else v2["OS_CACERT" := TrimSpace(CertificatePath(s.prefix))]
  }

  // ----- lemmas: one line of the file

  /** A name that the file uses as it is. */
  predicate IsPlainKey(key: string) {
    && key != [] && IsTrimmed(key)
    && '=' !in key && '\n' !in key && '\0' !in key
  }

  lemma LoadLine(vars: Variables, line: string, rest: string)
    requires '\n' !in line && |line| < MAX_LINE
    ensures Load(vars, line + ['\n'] + rest) == Load(ApplyLine(vars, DropCR(line)), rest)
  {
    ScanLinesCons(line, rest);
    var lines := [DropCR(line)] + ScanLines(rest);
    assert lines[1..] == ScanLines(rest);
  }

  /** TrimSpace does not invent characters. */
  lemma TrimSpaceWithin(s: string, c: char)
    requires c !in s
    ensures c !in TrimSpace(s)
  {
    TrimLeftShape(s);
    TrimRightShape(TrimLeft(s));
  }

  lemma AssignmentOf(key: string, val: string)
    requires IsPlainKey(key)
    ensures Assignment(DropCR(key + ['='] + val)) ==
            Some(if HasSuffix(key, "_ENC") then (key[..|key| - 4], TrimSpace(Decode(TrimSpace(val)).bytes))
                 else (key, TrimSpace(val)))
  {
    var line := key + ['='] + val;
    var cut := DropCR(val);
    assert DropCR(line) == key + ['='] + cut;
    IndexSkips(key, '=', cut);
    assert DropCR(line)[..|key|] == key && DropCR(line)[|key| + 1..] == cut;
    TrimSpaceTrims(key);
    TrimSpaceDropCR(val);
  }

  lemma LoadPlain(vars: Variables, key: string, val: string, rest: string)
    requires IsPlainKey(key) && !HasSuffix(key, "_ENC") && IsOneLine(val) && FitsOnLine(key, val)
    ensures Load(vars, Line(key, val) + rest) == Load(vars[key := TrimSpace(val)], rest)
  {
    var line := key + ['='] + val;
    assert Line(key, val) + rest == line + ['\n'] + rest;
    LoadLine(vars, line, rest);
    AssignmentOf(key, val);
    TrimSpaceWithin(val, '\0');
  }

  /** An encoded value of one line. */
  lemma LoadEncoded(vars: Variables, key: string, d: string, rest: string)
    requires IsPlainKey(key) && HasSuffix(key, "_ENC") && |key| > 4
    requires IsBytes(d) && '\0' !in d && FitsOnLine(key, Encode(d))
    ensures Load(vars, Line(key, Encode(d)) + rest) ==
            Load(vars[key[..|key| - 4] := TrimSpace(d[..ReadableLength(d)])], rest)
  {
    var val := Encode(d);
    var line := key + ['='] + val;
    assert Line(key, val) + rest == line + ['\n'] + rest;
    EncodedIsPlain(d);
    LoadLine(vars, line, rest);
    AssignmentOf(key, val);
    DecodeOfEncode(d);
    TrimSpaceWithin(d[..ReadableLength(d)], '\0');
  }

  lemma EncodedIsPlain(d: string)
    requires IsBytes(d)
    ensures '\n' !in Encode(d) && TrimSpace(Encode(d)) == Encode(d)
  {
    EncodeShape(d);
    TrimSpaceTrims(Encode(d));
  }

  /** Symbols, an equals sign, and at most one more: read as an assignment to a variable that is
      named by the symbols. */
  lemma StrayAssignment(key: string, val: string)
    requires key != [] && (forall i :: 0 <= i < |key| ==> IsStdSymbol(key[i]))
    requires val == [] || val == ['=']
    ensures Assignment(DropCR(key + ['='] + val)) == Some((key, val)) && IsSettable(key, val)
  {
    AssignmentOf(key, val);
    TrimSpaceTrims(val);
    assert |key| >= 4 ==> IsStdSymbol(key[|key| - 4]);
  }

  lemma NoAssignment(e: string)
    requires e != [] && forall i :: 0 <= i < |e| ==> IsStdSymbol(e[i])
    ensures Assignment(DropCR(e)) == None
  {
  }

  lemma ApplyUnpadded(vars: Variables, e: string)
    requires 0 < |e| <= 76 && forall i :: 0 <= i < |e| ==> IsStdSymbol(e[i])
    ensures ApplyLine(vars, DropCR(e)) == StrayVariable(vars, e)
  {
    NoAssignment(e);
    hide Assignment;
  }

  lemma StrayOfPadded(vars: Variables, key: string, val: string)
    requires '=' !in key && |key + ['='] + val| <= 76
    ensures StrayVariable(vars, key + ['='] + val) == vars[key := val]
  {
    var e := key + ['='] + val;
    IndexSkips(key, '=', val);
    assert LastLine(e) == e && e[..|key|] == key && e[|key| + 1..] == val;
    hide Index, LastLine;
  }

  lemma ApplyPadded(vars: Variables, key: string, val: string)
    requires key != [] && (forall i :: 0 <= i < |key| ==> IsStdSymbol(key[i]))
    requires val == [] || val == ['=']
    requires |key + ['='] + val| <= 76
    ensures ApplyLine(vars, DropCR(key + ['='] + val)) == StrayVariable(vars, key + ['='] + val)
  {
    StrayAssignment(key, val);
    assert '=' !in key;
    StrayOfPadded(vars, key, val);
    hide Assignment, DropCR, StrayVariable, IsSettable, IsStdSymbol;
  }

  /** The last line of a wrapped value: either no assignment or a stray one. */
  lemma LoadLastLine(vars: Variables, e: string, pad: nat, rest: string)
    requires 2 < |e| <= 76 && pad <= 2
    requires forall i :: 0 <= i < |e| - pad ==> IsStdSymbol(e[i])
    requires forall i :: |e| - pad <= i < |e| ==> e[i] == '='
    ensures Load(vars, e + ['\n'] + rest) == Load(StrayVariable(vars, e), rest)
  {
    hide Load, ApplyLine, StrayVariable, DropCR;
    LoadLine(vars, e, rest);
    if pad == 0 {
      ApplyUnpadded(vars, e);
    } else {
      var key, val := e[..|e| - pad], e[|e| - pad + 1..];
      assert e == key + ['='] + val;
      ApplyPadded(vars, key, val);
    }
  }

  lemma WrapStep(vars: Variables, a: string, b: string)
    requires |a| == 76 && b != []
    ensures Wrap(a + b) == a + ['\n'] + Wrap(b)
    ensures StrayVariable(vars, a + b) == StrayVariable(vars, b)
  {
    assert (a + b)[..76] == a && (a + b)[76..] == b;
  }

  lemma LoadUnpadded(vars: Variables, line: string, rest: string)
    requires 0 < |line| < MAX_LINE && forall i :: 0 <= i < |line| ==> IsStdSymbol(line[i])
    ensures Load(vars, line + ['\n'] + rest) == Load(vars, rest)
  {
    LoadLine(vars, line, rest);
  }

  /** The continuation lines of an encoded value. */
  lemma {:induction false} LoadContinuation(vars: Variables, e: string, pad: nat, rest: string)
    requires |e| > 0 && |e| % 4 == 0 && pad <= 2
    requires forall i :: 0 <= i < |e| - pad ==> IsStdSymbol(e[i])
    requires forall i :: |e| - pad <= i < |e| ==> e[i] == '='
    ensures Load(vars, Wrap(e) + ['\n'] + rest) == Load(StrayVariable(vars, e), rest)
    decreases |e|
  {
    hide Load, StrayVariable;
    if |e| <= 76 {
      LoadLastLine(vars, e, pad, rest);
    } else {
      var line, tail := e[..76], e[76..];
      assert e == line + tail;
      WrapStep(vars, line, tail);
      var more := Wrap(tail) + ['\n'] + rest;
      assert Wrap(e) + ['\n'] + rest == line + ['\n'] + more;
      LoadUnpadded(vars, line, more);
      LoadContinuation(vars, tail, pad, rest);
    }
  }

  // ----- lemmas: which bytes of the password survive

  lemma GroupReadableAscii(g: string)
    requires 1 <= |g| <= 3 && IsBytes(g)
    requires forall i :: 0 <= i < |g| ==> g[i] <= '~'
    ensures GroupReadable(g) <==> |g| < 3 || !IsOffending(g[2])
  {
  }

  lemma {:induction false} ReadableIsSafe(password: string, tail: string)
    requires IsPrintable(password) && (tail == ['\n'] || (tail == [] && |password| % 3 == 0))
    ensures IsBytes(password + tail)
    ensures ReadableLength(password + tail) ==
            if SafeLength(password) == |password| then |password| + |tail| else SafeLength(password)
    decreases |password|
  {
    var d := password + tail;
    if |password| < 3 {
      if d != [] {
        assert d[..|d|] == d;
        GroupReadableAscii(d);
      }
    } else {
      assert d[..3] == password[..3] && d[3..] == password[3..] + tail;
      GroupReadableAscii(d[..3]);
      ReadableIsSafe(password[3..], tail);
    }
  }

  lemma {:induction false} SafeLengthOfPrefix(password: string, k: nat)
    requires k <= |password| && k % 3 == 0
    ensures SafeLength(password[..k]) == if SafeLength(password) <= k then SafeLength(password) else k
  {
    if k == 0 {
    } else {
      assert password[..k][3..] == password[3..][..k - 3];
      SafeLengthOfPrefix(password[3..], k - 3);
    }
  }

  /** Trimming the bytes that a one-line entry decodes to. */
  lemma TrimmedShortPassword(password: string)
    requires IsPrintable(password)
    ensures var d := password + ['\n'];
            IsBytes(d) && TrimSpace(d[..ReadableLength(d)]) == TrimSpace(password[..SafeLength(password)])
  {
    ReadableIsSafe(password, ['\n']);
    var d, n := password + ['\n'], SafeLength(password);
    if n == |password| {
      assert d[..|d|] == d && password[..n] == password;
      TrimSpaceDropsLast(password, '\n');
    } else {
      assert d[..n] == password[..n];
    }
  }

  /** The password entry of the file, for a password that is encoded on one line. */
  lemma LoadShortPassword(vars: Variables, key: string, password: string, rest: string)
    requires key == "OS_PASSWORD_ENC"
    requires IsPrintable(password) && |password| < 57
    ensures Load(vars, Line(key, EncodedPassword(password)) + rest) ==
            Load(AfterPassword(vars, password), rest)
  {
    hide Load, Encode, TrimSpace, ReadableLength;
    var d := password + ['\n'];
    EncodeLength(d);
    GroupsOf(|d|);
    LoadEncoded(vars, key, d, rest);
    assert key[..|key| - 4] == "OS_PASSWORD";
    TrimmedShortPassword(password);
  }

  lemma Regroup(key: string, a: string, w: string, rest: string)
    ensures Line(key, a + ['\n'] + w) + rest == Line(key, a) + (w + ['\n'] + rest)
  {
  }

  /** ... and for one that is wrapped: the first line holds 57 bytes of it. */
  lemma LoadLongPassword(vars: Variables, key: string, password: string, rest: string)
    requires key == "OS_PASSWORD_ENC"
    requires IsPrintable(password) && |password| >= 57
    ensures Load(vars, Line(key, EncodedPassword(password)) + rest) ==
            Load(AfterPassword(vars, password), rest)
  {
    hide Load, Encode, Wrap, TrimSpace, ReadableLength, StrayVariable, Line;
    var a, b := password[..57], (password + ['\n'])[57..];
    WrapLongPassword(password);
    var more := Encode(b);
    var tail := Wrap(more) + ['\n'] + rest;
    Regroup(key, Encode(a), Wrap(more), rest);
    EncodeLength(a);
    GroupsOf(57);
    LoadEncoded(vars, key, a, tail);
    assert key[..|key| - 4] == "OS_PASSWORD";
    ReadableOfFirstLine(password);
    EncodeShape(b);
    var n := RecoveredLength(password);
    LoadContinuation(vars["OS_PASSWORD" := TrimSpace(password[..n])], more, PadCount(|b|), rest);
  }

  lemma ReadableOfFirstLine(password: string)
    requires IsPrintable(password) && |password| >= 57
    ensures var a, n := password[..57], RecoveredLength(password);
            IsBytes(a) && ReadableLength(a) == n && a[..n] == password[..n]
  {
    var a := password[..57];
    ReadableIsSafe(a, []);
    assert a + [] == a;
    SafeLengthOfPrefix(password, 57);
  }

  lemma WrapLongPassword(password: string)
    requires IsPrintable(password) && |password| >= 57
    ensures var a, b := password[..57], (password + ['\n'])[57..];
            && IsBytes(a) && IsBytes(b)
            && |Encode(b)| > 0 && |Encode(b)| % 4 == 0
            && EncodedPassword(password) == Encode(a) + ['\n'] + Wrap(Encode(b))
  {
    hide Encode, Wrap;
    var a, b := password[..57], (password + ['\n'])[57..];
    assert a + b == password + ['\n'];
    EncodeAppend(a, b);
    EncodeLength(a);
    EncodeLength(b);
    GroupsOf(57);
    GroupsOf(|b|);
    WrapStep(map[], Encode(a), Encode(b));
  }

  // ----- main results

  /** Reading the printed file sets each plain variable to its trimmed value and the password to its
      recovered part, for values of every kind and passwords of every length. */
  lemma ConfigRoundTrip(vars: Variables, s: Settings)
    requires Writable(s)
    ensures Load(vars, PrintConfig(s)) == Recovered(vars, s)
  {
    hide Load, AfterPassword, EncodedPassword, Line, CertificatePath, IsPlainKey, HasSuffix, TrimSpace;
    FileNames();
    var ca := if s.caCert == [] then [] else Line("OS_CACERT", CertificatePath(s.prefix));
    var t4 := Line("OS_PROJECT_NAME", s.projectName) + ca;
    var t3 := Line("OS_DOMAIN_NAME", s.domainName) + t4;
    var t2 := Line("OS_PASSWORD_ENC", EncodedPassword(s.password)) + t3;
    var t1 := Line("OS_USERNAME", s.username) + t2;
    assert PrintConfig(s) == Line("OS_AUTH_URL", s.authUrl) + t1;
    LoadPlain(vars, "OS_AUTH_URL", s.authUrl, t1);
    var v1 := vars["OS_AUTH_URL" := TrimSpace(s.authUrl)];
    LoadPlain(v1, "OS_USERNAME", s.username, t2);
    var v2 := v1["OS_USERNAME" := TrimSpace(s.username)];
    if |s.password| < 57 {
      LoadShortPassword(v2, "OS_PASSWORD_ENC", s.password, t3);
    } else {
      LoadLongPassword(v2, "OS_PASSWORD_ENC", s.password, t3);
    }
    var v3 := AfterPassword(v2, s.password);
    LoadPlain(v3, "OS_DOMAIN_NAME", s.domainName, t4);
    var v4 := v3["OS_DOMAIN_NAME" := TrimSpace(s.domainName)];
    LoadPlain(v4, "OS_PROJECT_NAME", s.projectName, ca);
    var v5 := v4["OS_PROJECT_NAME" := TrimSpace(s.projectName)];
    if s.caCert != [] {
      CertificatePathIsOneLine(s.prefix);
      LoadPlain(v5, "OS_CACERT", CertificatePath(s.prefix), []);
      assert ca + [] == ca;
    }
    LoadNothing(v5);
    LoadNothing(v5["OS_CACERT" := TrimSpace(CertificatePath(s.prefix))]);
  }

  lemma LoadNothing(vars: Variables)
    ensures Load(vars, []) == vars
  {
  }

  lemma OneLineConcat(a: string, b: string)
    requires IsOneLine(a) && IsOneLine(b)
    ensures IsOneLine(a + b)
  {
  }

  lemma CertificatePathIsOneLine(prefix: string)
    requires IsOneLine(prefix)
    ensures IsOneLine(CertificatePath(prefix))
  {
    hide IsOneLine, PluginDir;
    assert IsOneLine("-volume-flex") && IsOneLine("/") && IsOneLine(".crt") by { ShortLiterals(); }
    var dir := PluginDir();
    assert IsOneLine(dir) by { DirectoryIsOneLine(); }
    var driver := prefix + "-volume-flex";
    OneLineConcat(prefix, "-volume-flex");
    OneLineConcat(dir, driver);
    OneLineConcat(dir + driver, "/");
    OneLineConcat(dir + driver + "/", driver);
    OneLineConcat(dir + driver + "/" + driver, ".crt");
  }

  lemma ShortLiterals()
    ensures IsOneLine("-volume-flex") && IsOneLine("/") && IsOneLine(".crt")
  {
  }

  lemma DirectoryIsOneLine()
    ensures IsOneLine(PluginDir())
  {
    OneLineConcat("/usr/libexec/kubernetes/", "kubelet-plugins/volume/");
    OneLineConcat("/usr/libexec/kubernetes/" + "kubelet-plugins/volume/", "exec/ibm~");
  }

  lemma FileNames()
    ensures IsPlainKey("OS_AUTH_URL") && !HasSuffix("OS_AUTH_URL", "_ENC")
    ensures IsPlainKey("OS_USERNAME") && !HasSuffix("OS_USERNAME", "_ENC")
    ensures IsPlainKey("OS_DOMAIN_NAME") && !HasSuffix("OS_DOMAIN_NAME", "_ENC")
    ensures IsPlainKey("OS_PROJECT_NAME") && !HasSuffix("OS_PROJECT_NAME", "_ENC")
    ensures IsPlainKey("OS_CACERT") && !HasSuffix("OS_CACERT", "_ENC")
  {
    hide HasSuffix, IsPlainKey;
    NotEncoded("OS_AUTH_URL");
    NotEncoded("OS_USERNAME");
    NotEncoded("OS_DOMAIN_NAME");
    NotEncoded("OS_PROJECT_NAME");
    NotEncoded("OS_CACERT");
    PlainNames1();
    PlainNames2();
  }

  lemma PlainNames1()
    ensures IsPlainKey("OS_AUTH_URL") && IsPlainKey("OS_USERNAME") && IsPlainKey("OS_CACERT")
  {
  }

  lemma PlainNames2()
    ensures IsPlainKey("OS_DOMAIN_NAME") && IsPlainKey("OS_PROJECT_NAME")
  {
  }

  lemma NotEncoded(key: string)
    requires key != [] && key[|key| - 1] != 'C'
    ensures !HasSuffix(key, "_ENC")
  {
    assert |key| >= 4 ==> key[|key| - 4..][3] == key[|key| - 1];
  }

  /** What SafeLength measures: everything exactly when no group ends in an offending byte, and
      otherwise the start of the first such group. */
  lemma {:induction false} SafeLengthIsFirstOffence(password: string)
    ensures var n := SafeLength(password);
            && (forall i :: 0 <= i < n && i % 3 == 2 ==> !IsOffending(password[i]))
            && (n < |password| ==> n % 3 == 0 && n + 2 < |password| && IsOffending(password[n + 2]))
  {
    if |password| >= 3 && !IsOffending(password[2]) {
      SafeLengthIsFirstOffence(password[3..]);
      var n := SafeLength(password[3..]);
      forall i | 0 <= i < 3 + n && i % 3 == 2
        ensures !IsOffending(password[i])
      {
        if i >= 3 {
          assert password[i] == password[3..][i - 3];
        }
      }
      assert n < |password[3..]| ==> password[3..][n + 2] == password[n + 5];
    }
  }

  /** The condition a user could check before choosing a password. */
  predicate Survives(password: string) {
    |password| <= 57 && forall i :: 0 <= i < |password| && i % 3 == 2 ==> !IsOffending(password[i])
  }

  lemma WritablePassword(s: Settings)
    requires Writable(s)
    ensures IsPrintable(s.password)
  {
  }

  /** The password the driver authenticates with is the one that was configured if and only if it has
      no blank at its ends, at most 57 characters and no '>', '?' or '~' at an index congruent to 2
      modulo 3. */
  lemma PasswordRoundTrip(vars: Variables, s: Settings)
    requires Writable(s)
    ensures var loaded := Load(vars, PrintConfig(s));
            && "OS_PASSWORD" in loaded
            && (loaded["OS_PASSWORD"] == s.password <==> IsTrimmed(s.password) && Survives(s.password))
  {
    hide Load, PrintConfig, Encode, Recovered, TrimSpace, Writable, SafeLength;
    var p := s.password;
    ConfigRoundTrip(vars, s);
    assert IsPrintable(p) by { WritablePassword(s); }
    RecoveredPassword(vars, s);
    SafeLengthIsFirstOffence(p);
    var n := RecoveredLength(p);
    TrimSpaceTrims(p[..n]);
    if n == |p| {
      assert p[..n] == p;
      TrimSpaceTrims(p);
    } else {
      assert SafeLength(p) < |p| ==> IsOffending(p[SafeLength(p) + 2]) && (SafeLength(p) + 2) % 3 == 2;
    }
  }

  lemma LastLineShape(e: string, pad: nat)
    requires pad <= 2 && |e| > 0 && |e| % 4 == 0
    requires forall i :: 0 <= i < |e| - pad ==> IsStdSymbol(e[i])
    requires forall i :: |e| - pad <= i < |e| ==> e[i] == '='
    ensures var last := LastLine(e);
            && |last| > 2
            && (forall i :: 0 <= i < |last| - pad ==> IsStdSymbol(last[i]))
            && (forall i :: |last| - pad <= i < |last| ==> last[i] == '=')
    decreases |e|
  {
    if |e| > 76 {
      LastLineShape(e[76..], pad);
    }
  }

  /** A stray variable appears exactly when the password is wrapped and its encoding is padded. Its
      name has no underscore, so it is none of the names in the file. */
  lemma StrayNameIsForeign(password: string)
    requires IsPrintable(password)
    ensures StrayName(password).Some? <==> |password| >= 57 && |password| % 3 != 2
    ensures StrayName(password).Some? ==> '_' !in StrayName(password).value
  {
    hide Encode, LastLine, Index, IsPrintable;
    if |password| >= 57 {
      NameOfRest(password);
    }
  }

  /** The bytes behind the first line of a wrapped password. */
  function Rest(password: string): string
    requires IsPrintable(password) && |password| >= 57
    ensures IsBytes(Rest(password)) && |Rest(password)| == |password| - 56
  {
    (password + ['\n'])[57..]
  }

  lemma PadOfRest(n: nat)
    requires n >= 57
    ensures PadCount(n - 56) > 0 <==> n % 3 != 2
  {
  }

  lemma EncodeIsWhole(d: string)
    requires IsBytes(d) && d != []
    ensures |Encode(d)| > 0 && |Encode(d)| % 4 == 0
  {
    hide Encode, IsBytes;
    EncodeLength(d);
    assert Groups(|d|) > 0;
    hide Groups;
    Fourfold(Groups(|d|));
  }

  lemma Fourfold(n: nat)
    ensures 4 * n % 4 == 0
  {
  }

  lemma NameOfRest(password: string)
    requires IsPrintable(password) && |password| >= 57
    ensures var last := LastLine(Encode(Rest(password)));
            var i := Index(last, '=');
            (i >= 0 <==> |password| % 3 != 2) && (i >= 0 ==> '_' !in last[..i])
  {
    var b := Rest(password);
    var pad := PadCount(|b|);
    PadOfRest(|password|);
    assert pad <= 2;
    hide Encode, LastLine, Index, IsPrintable, Rest, IsStdSymbol, IsBytes, PadCount;
    EncodeIsWhole(b);
    EncodeShape(b);
    LastLineShape(Encode(b), pad);
    NameOfPaddedLine(LastLine(Encode(b)), pad);
  }

  lemma NameOfPaddedLine(last: string, pad: nat)
    requires |last| > 2 && pad <= 2
    requires forall i :: 0 <= i < |last| - pad ==> IsStdSymbol(last[i])
    requires forall i :: |last| - pad <= i < |last| ==> last[i] == '='
    ensures var i := Index(last, '=');
            (i >= 0 <==> pad > 0) && (i >= 0 ==> '_' !in last[..i])
  {
    assert pad > 0 ==> last[|last| - 1] == '=';
  }

  lemma RecoveredPassword(vars: Variables, s: Settings)
    requires IsPrintable(s.password)
    ensures "OS_PASSWORD" in Recovered(vars, s)
    ensures Recovered(vars, s)["OS_PASSWORD"] == TrimSpace(s.password[..RecoveredLength(s.password)])
  {
    hide TrimSpace, Encode, CertificatePath, LastLine, Index;
    assert "OS_PASSWORD"[3] == 'P' && "OS_DOMAIN_NAME"[3] == 'D' && "OS_PROJECT_NAME"[4] == 'R'
        && "OS_CACERT"[3] == 'C' && "OS_PASSWORD"[4] == 'A';
    StrayNameIsForeign(s.password);
    assert "OS_PASSWORD"[2] == '_';
  }

  /** The variables that are present afterwards: those of before, the ones of the file and, when the
      encoded password is wrapped and padded, one more. */
  lemma VariablesAfterwards(vars: Variables, s: Settings)
    requires Writable(s)
    ensures var stray := StrayName(s.password);
            Load(vars, PrintConfig(s)).Keys ==
            vars.Keys + {"OS_AUTH_URL", "OS_USERNAME", "OS_PASSWORD", "OS_DOMAIN_NAME", "OS_PROJECT_NAME"}
            + (if s.caCert == [] then {} else {"OS_CACERT"})
            + (if stray.None? then {} else {stray.value})
  {
    hide Load, PrintConfig, TrimSpace, Encode, CertificatePath, LastLine, Index;
    ConfigRoundTrip(vars, s);
  }

  /** White space around the name, the equals sign and the value does not matter; the name is what stands
      before the first equals sign, and a name that ends in _ENC stands for the variable without it, with
      the decoded and trimmed value. */
  lemma BlanksDoNotMatter(b1: string, key: string, b2: string, b3: string, val: string, b4: string)
    requires forall c :: c in b1 + b2 + b3 + b4 ==> IsSpace(c)
    requires key != [] && '=' !in key && IsTrimmed(key) && IsTrimmed(val)
    ensures Assignment(b1 + key + b2 + ['='] + (b3 + val + b4)) ==
            Some(if |key| >= 4 && key[|key| - 4..] == "_ENC" then (key[..|key| - 4], TrimSpace(Decode(val).bytes))
                 else (key, val))
  {
    var left, right := b1 + key + b2, b3 + val + b4;
    var line := left + ['='] + right;
    forall c | c in b1 || c in b2 || c in b3 || c in b4 ensures IsSpace(c) {
      assert c in b1 + b2 + b3 + b4;
    }
    assert '=' !in left;
    IndexSkips(left, '=', right);
    assert line[..|left|] == left && line[|left| + 1..] == right;
    TrimSpaceOf(b1, key, b2);
    TrimSpaceOf(b3, val, b4);
    hide TrimSpace, Decode, Index;
  }

  /** The lines that ask for nothing: those without an equals sign and those that begin with one. */
  lemma IgnoredLines(line: string)
    ensures Assignment(line).None? <==> '=' !in line || line[0] == '='
  {
    hide TrimSpace, HasSuffix, Decode;
    if '=' in line && line[0] == '=' {
      assert Index(line, '=') == 0;
    }
  }

  /** When a certificate is configured, the driver looks for it at the place to which the script copies it:
      beside the driver, in the directory of plugins. */
  lemma CertificateIsFound(vars: Variables, s: Settings)
    requires Writable(s) && s.caCert != []
    ensures var loaded := Load(vars, PrintConfig(s));
            && "OS_CACERT" in loaded
            && loaded["OS_CACERT"] == "/usr/libexec/kubernetes/kubelet-plugins/volume/exec/ibm~" + s.prefix + "-volume-flex/"
                                      + s.prefix + "-volume-flex.crt"
  {
    ConfigRoundTrip(vars, s);
    CertificatePathIsExact(s.prefix);
    hide Load, PrintConfig, TrimSpace, CertificatePath, Encode, Writable, AfterPassword;
    assert IsPrintable(s.password) by { WritablePassword(s); }
    TrimSpaceTrims(CertificatePath(s.prefix));
  }

  lemma PluginDirIsExact()
    ensures PluginDir() == "/usr/libexec/kubernetes/kubelet-plugins/volume/exec/ibm~"
  {
  }

  lemma CertificatePathIsExact(prefix: string)
    ensures CertificatePath(prefix) == "/usr/libexec/kubernetes/kubelet-plugins/volume/exec/ibm~" + prefix + "-volume-flex/"
                                       + prefix + "-volume-flex.crt"
    ensures IsTrimmed(CertificatePath(prefix))
  {
    PluginDirIsExact();
    var dir := PluginDir();
    assert |dir| > 0 && dir[0] == '/';
    hide PluginDir;
    var driver := prefix + "-volume-flex";
    assert "-volume-flex" + "/" == "-volume-flex/" && "-volume-flex" + ".crt" == "-volume-flex.crt";
    assert dir + driver + "/" == dir + prefix + ("-volume-flex" + "/");
    assert driver + ".crt" == prefix + ("-volume-flex" + ".crt");
    assert CertificatePath(prefix) == (dir + driver + "/") + (driver + ".crt");
    assert dir + prefix + "-volume-flex/" + (prefix + "-volume-flex.crt")
        == dir + prefix + "-volume-flex/" + prefix + "-volume-flex.crt";
  }

  /** The line sets this variable. */
  predicate Sets(line: string, key: string) {
    Assignment(line).Some? && Assignment(line).value.0 == key && IsSettable(key, Assignment(line).value.1)
  }

  /** In every file the last line that sets a variable wins, and a variable that no line sets keeps its
      value; lines whose name or value the system refuses do not matter. */
  lemma {:induction false} LastLineWins(vars: Variables, lines: seq<string>, key: string, n: nat)
    requires n <= |lines|
    requires forall j :: n <= j < |lines| ==> !Sets(lines[j], key)
    requires n > 0 ==> Sets(lines[n - 1], key)
    ensures n > 0 ==> key in LoadLines(vars, lines)
                      && LoadLines(vars, lines)[key] == Assignment(lines[n - 1]).value.1
    ensures n == 0 ==> (key in LoadLines(vars, lines) <==> key in vars)
                       && (key in vars ==> LoadLines(vars, lines)[key] == vars[key])
    decreases |lines|
  {
    hide Assignment;
    if lines == [] {
    } else if n > 1 {
      LastLineWins(ApplyLine(vars, lines[0]), lines[1..], key, n - 1);
    } else {
      LastLineWins(ApplyLine(vars, lines[0]), lines[1..], key, 0);
    }
  }

  /** The bound on the length of a line is sharp: a longer one hides itself and the rest of the file. */
  lemma {:induction false} LongLineHidesTheRest(vars: Variables, before: seq<string>, line: string, rest: string)
    requires forall k :: 0 <= k < |before| ==> '\n' !in before[k] && |before[k]| < MAX_LINE
    requires '\n' !in line && |line| >= MAX_LINE
    ensures Load(vars, Unlines(before) + (line + ['\n'] + rest)) == Load(vars, Unlines(before))
    decreases |before|
  {
    var long := line + ['\n'] + rest;
    if before == [] {
      assert [] + long == long;
      IndexSkips(line, '\n', rest);
    } else {
      hide Load;
      var head, tail := before[0], Unlines(before[1..]);
      assert Unlines(before) + long == head + ['\n'] + (tail + long);
      LoadLine(vars, head, tail + long);
      LoadLine(vars, head, tail);
      LongLineHidesTheRest(ApplyLine(vars, DropCR(head)), before[1..], line, rest);
    }
  }
}
