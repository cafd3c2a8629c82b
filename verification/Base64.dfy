/** The two base64 alphabets the configuration file goes through: the setup script encodes with
    the standard alphabet (section 4 of RFC 4648), the driver decodes with the URL-safe one
    (section 5 of RFC 4648). */
module Base64 {
  import opened Text

  type Sextet = x: int | 0 <= x < 64

  /** Every character stands for one byte. */
  predicate IsBytes(d: string) {
    forall i :: 0 <= i < |d| ==> d[i] as int < 256
  }

  predicate IsStdSymbol(c: char) {
    'A' <= c <= 'Z' || 'a' <= c <= 'z' || '0' <= c <= '9' || c == '+' || c == '/'
  }

  /** The symbol of the standard alphabet. The URL-safe alphabet reads it back, except for the
      last two, which it does not know. */
  function StdSymbol(x: Sextet): (c: char)
    ensures IsStdSymbol(c)
    ensures UrlValue(c) == if x < 62 then Some(x) else None
  {
    if x < 26 then (x + 65) as char
    else if x < 52 then (x + 71) as char
    else if x < 62 then (x - 4) as char
    else if x == 62 then '+'
    else '/'
  }

  /** The value of a symbol of the URL-safe alphabet. */
  function UrlValue(c: char): Option<Sextet> {
    if 'A' <= c <= 'Z' then Some(c as int - 65)
    else if 'a' <= c <= 'z' then Some(c as int - 71)
    else if '0' <= c <= '9' then Some(c as int + 4)
    else if c == '-' then Some(62)
    else if c == '_' then Some(63)
    else None
  }

  /** The four sextets of a group of three bytes. */
  datatype Quantum = Quantum(v0: Sextet, v1: Sextet, v2: Sextet, v3: Sextet)

  /** A group of one to three bytes, filled up with zero bytes. */
  function QuantumOf(g: string): Quantum
    requires IsBytes(g) && 1 <= |g| <= 3
  {
    var b0 := g[0] as int;
    var b1 := if |g| > 1 then g[1] as int else 0;
    var b2 := if |g| > 2 then g[2] as int else 0;
    Quantum(b0 / 4, b0 % 4 * 16 + b1 / 16, b1 % 16 * 4 + b2 / 64, b2 % 64)
  }

  /** The symbols of a group: one more than it has bytes, then padding. */
  function EncodeGroup(g: string): (s: string)
    requires IsBytes(g) && 1 <= |g| <= 3
    ensures |s| == 4
  {
    var q := QuantumOf(g);
    [StdSymbol(q.v0), StdSymbol(q.v1),
     if |g| > 1 then StdSymbol(q.v2) else '=', if |g| > 2 then StdSymbol(q.v3) else '=']
  }

  /** The base64 tool: three bytes become four symbols, a shorter last group is padded. */
  function Encode(d: string): string
    requires IsBytes(d)
  {
    if d == [] then []
    else if |d| <= 3 then EncodeGroup(d)
    else EncodeGroup(d[..3]) + Encode(d[3..])
  }

  /** What Go's DecodeString returns: the decoded bytes and whether the error is nil. */
  datatype Decoded = Decoded(bytes: string, ok: bool)

  function FirstByte(v0: Sextet, v1: Sextet): char { (v0 * 4 + v1 / 16) as char }

  function SecondByte(v1: Sextet, v2: Sextet): char { (v1 % 16 * 16 + v2 / 4) as char }

  function ThirdByte(v2: Sextet, v3: Sextet): char { (v2 % 4 * 64 + v3) as char }

  /** URLEncoding.DecodeString on text without line breaks: the bytes of the whole quanta before
      the first bad symbol. A padded quantum ends the text; what follows it is an error, but its
      own bytes are kept. */
  function DecodeSymbols(s: string): Decoded {
    if s == [] then Decoded([], true)
    else if |s| < 4 then Decoded([], false)
    else match (UrlValue(s[0]), UrlValue(s[1]), UrlValue(s[2]), UrlValue(s[3]))
      case (Some(v0), Some(v1), Some(v2), Some(v3)) =>
        var rest := DecodeSymbols(s[4..]);
        Decoded([FirstByte(v0, v1), SecondByte(v1, v2), ThirdByte(v2, v3)] + rest.bytes, rest.ok)
      case (Some(v0), Some(v1), Some(v2), None) =>
        if s[3] == '=' then Decoded([FirstByte(v0, v1), SecondByte(v1, v2)], |s| == 4)
        else Decoded([], false)
      case (Some(v0), Some(v1), None, _) =>
        if s[2] == '=' && s[3] == '=' then Decoded([FirstByte(v0, v1)], |s| == 4)
        else Decoded([], false)
      case _ => Decoded([], false)
  }

  /** Go's decoder skips line breaks wherever they stand. */
  function WithoutBreaks(s: string): string {
    if s == [] then []
    else if s[0] == '\n' || s[0] == '\r' then WithoutBreaks(s[1..])
    else [s[0]] + WithoutBreaks(s[1..])
  }

  function Decode(s: string): Decoded {
    DecodeSymbols(WithoutBreaks(s))
  }

  // ----- what a mixed-alphabet round trip keeps

  /** The symbols of one group lie in the common part of the two alphabets. */
  predicate GroupReadable(g: string)
    requires IsBytes(g) && 1 <= |g| <= 3
  {
    var q := QuantumOf(g);
    q.v0 < 62 && q.v1 < 62 && q.v2 < 62 && q.v3 < 62
  }

  /** The number of bytes in the readable groups before the first unreadable one. */
  function ReadableLength(d: string): (n: nat)
    requires IsBytes(d)
    ensures n <= |d|
  {
    if d == [] then 0
    else
      var size := if |d| < 3 then |d| else 3;
      if GroupReadable(d[..size]) then size + ReadableLength(d[size..]) else 0
  }

  /** Symbols are neither padding nor line breaks nor blanks. */
  predicate IsSymbolText(s: string) {
    forall i :: 0 <= i < |s| ==> IsStdSymbol(s[i]) || s[i] == '='
  }

  lemma EncodeGroupShape(g: string)
    requires IsBytes(g) && 1 <= |g| <= 3
    ensures forall i :: 0 <= i < 4 ==>
              if i <= |g| then IsStdSymbol(EncodeGroup(g)[i]) else EncodeGroup(g)[i] == '='
  {
  }

  /** The number of bytes missing in the last group. */
  function PadCount(n: nat): nat {
    if n % 3 == 0 then 0 else 3 - n % 3
  }

  function Groups(n: nat): nat {
    if n == 0 then 0 else if n <= 3 then 1 else 1 + Groups(n - 3)
  }

  lemma {:induction false} GroupsOf(n: nat)
    ensures Groups(n) == (n + 2) / 3
  {
    if n <= 3 {
    } else {
      GroupsOf(n - 3);
    }
  }

  lemma {:induction false} EncodeLength(d: string)
    requires IsBytes(d)
    ensures |Encode(d)| == 4 * Groups(|d|)
  {
    if |d| <= 3 {
    } else {
      EncodeLength(d[3..]);
    }
  }

  /** The output consists of symbols and, at the very end, one padding character for each byte
      that is missing in the last group. */
  lemma {:induction false} EncodeShape(d: string)
    requires IsBytes(d)
    ensures |Encode(d)| >= PadCount(|d|)
    ensures forall i :: 0 <= i < |Encode(d)| - PadCount(|d|) ==> IsStdSymbol(Encode(d)[i])
    ensures forall i :: |Encode(d)| - PadCount(|d|) <= i < |Encode(d)| ==> Encode(d)[i] == '='
  {
    hide EncodeGroup;
    if d == [] {
    } else {
      var g := if |d| <= 3 then d else d[..3];
      EncodeGroupShape(g);
      if |d| > 3 {
        EncodeShape(d[3..]);
        var rest := Encode(d[3..]);
        assert Encode(d) == EncodeGroup(g) + rest;
        assert PadCount(|d|) == PadCount(|d[3..]|);
      }
    }
  }

  lemma {:induction false} SymbolTextHasNoBreaks(s: string)
    requires IsSymbolText(s)
    ensures WithoutBreaks(s) == s
  {
    if s == [] {
    } else {
      assert s[0] in s;
      SymbolTextHasNoBreaks(s[1..]);
    }
  }

  /** Four sextets give back the three bytes they came from. */
  lemma QuantumInverse(g: string)
    requires IsBytes(g) && 1 <= |g| <= 3
    ensures var q := QuantumOf(g);
            && FirstByte(q.v0, q.v1) == g[0]
            && (|g| > 1 ==> SecondByte(q.v1, q.v2) == g[1])
            && (if |g| > 2 then ThirdByte(q.v2, q.v3) == g[2] else q.v3 == 0)
            && (|g| == 1 ==> q.v2 == 0)
  {
    var b1 := if |g| > 1 then g[1] as int else 0;
    var b2 := if |g| > 2 then g[2] as int else 0;
    Recombine(g[0] as int, b1, 16);
    Recombine(b1, b2, 64);
  }

  /** Putting the low part of one byte and the high part of the next together loses neither. */
  lemma Recombine(low: int, high: int, m: int)
    requires 0 <= low < 256 && 0 <= high < 256 && (m == 16 || m == 64)
    ensures m == 16 ==> (low % 4 * 16 + high / 16) / 16 == low % 4 && (low % 4 * 16 + high / 16) % 16 == high / 16
    ensures m == 64 ==> (low % 16 * 4 + high / 64) / 4 == low % 16 && (low % 16 * 4 + high / 64) % 4 == high / 64
  {
  }

  /** One quantum at the head of the text: kept when readable, the end of the output when not. */
  lemma DecodeGroup(g: string, rest: string)
    requires IsBytes(g) && 1 <= |g| <= 3
    requires |g| < 3 ==> rest == []
    ensures var d := DecodeSymbols(EncodeGroup(g) + rest);
            if GroupReadable(g) then d == Decoded(g + DecodeSymbols(rest).bytes, DecodeSymbols(rest).ok)
            else d == Decoded([], false)
  {
    hide QuantumOf, StdSymbol, FirstByte, SecondByte, ThirdByte;
    QuantumInverse(g);
    assert UrlValue('=') == None;
    var s := EncodeGroup(g) + rest;
    assert s[4..] == rest;
  }

  /** On every byte string, encoding with the standard alphabet and decoding with the URL-safe one
      keeps exactly the bytes before the first group with a symbol on which the alphabets differ;
      the decoder reports success exactly when nothing was lost. */
  lemma {:induction false} DecodeOfEncode(d: string)
    requires IsBytes(d)
    ensures Decode(Encode(d)) == Decoded(d[..ReadableLength(d)], ReadableLength(d) == |d|)
  {
    EncodeShape(d);
    SymbolTextHasNoBreaks(Encode(d));
    DecodeSymbolsOfEncode(d);
  }

  lemma DecodeNothing()
    ensures DecodeSymbols([]) == Decoded([], true)
  {
  }

  lemma {:induction false} DecodeSymbolsOfEncode(d: string)
    requires IsBytes(d)
    ensures DecodeSymbols(Encode(d)) == Decoded(d[..ReadableLength(d)], ReadableLength(d) == |d|)
  {
    hide DecodeSymbols, EncodeGroup, GroupReadable;
    assert DecodeSymbols([]) == Decoded([], true) by { DecodeNothing(); }
    if d == [] {
    } else {
      var size := if |d| < 3 then |d| else 3;
      var g, rest := d[..size], d[size..];
      assert g + rest == d;
      assert Encode(d) == EncodeGroup(g) + Encode(rest) by {
        if |d| >= 3 { EncodeStep(d); } else { assert g == d; }
      }
      DecodeGroup(g, Encode(rest));
      DecodeSymbolsOfEncode(rest);
      var n := ReadableLength(rest);
      assert d[..size + n] == g + rest[..n];
    }
  }

  lemma EncodeStep(d: string)
    requires IsBytes(d) && |d| >= 3
    ensures Encode(d) == EncodeGroup(d[..3]) + Encode(d[3..])
  {
    if |d| == 3 {
      assert d[..3] == d;
    }
  }

  lemma BytesOfParts(a: string, b: string)
    requires IsBytes(a) && IsBytes(b)
    ensures IsBytes(a + b) && (|a| >= 3 ==> IsBytes(a[..3]) && IsBytes(a[3..]) && IsBytes(a[3..] + b))
  {
  }

  lemma EncodeStepOfSum(a: string, b: string)
    requires IsBytes(a) && IsBytes(b) && IsBytes(a + b) && |a| >= 3 && IsBytes(a[..3]) && IsBytes(a[3..] + b)
    ensures Encode(a + b) == EncodeGroup(a[..3]) + Encode(a[3..] + b)
  {
    hide Encode, EncodeGroup, IsBytes;
    assert (a + b)[..3] == a[..3] && (a + b)[3..] == a[3..] + b;
    EncodeStep(a + b);
  }

  lemma Associate(a: string, b: string, c: string)
    ensures a + (b + c) == (a + b) + c
  {
  }

  /** Encoding is compositional at multiples of three bytes: this is why a line of the wrapped
      output can be decoded by itself. */
  lemma {:induction false} EncodeAppend(a: string, b: string)
    requires IsBytes(a) && IsBytes(b) && |a| % 3 == 0
    ensures IsBytes(a + b) && Encode(a + b) == Encode(a) + Encode(b)
  {
    BytesOfParts(a, b);
    if a == [] {
      assert a + b == b;
    } else {
      hide Encode, EncodeGroup, IsBytes;
      EncodeAppend(a[3..], b);
      EncodeStep(a);
      EncodeStepOfSum(a, b);
      Associate(EncodeGroup(a[..3]), Encode(a[3..]), Encode(b));
    }
  }

  // ----- the alphabets, and what the decoder makes of other text

  const UPPER := "ABCDEFGHIJKLMNOPQRSTUVWXYZ"
  const LOWER := "abcdefghijklmnopqrstuvwxyz"
  const DIGITS := "0123456789"

  lemma UpperSymbol(x: nat)
    requires x < 26
    ensures |UPPER| == 26 && StdSymbol(x) == UPPER[x]
  {
  }

  lemma LowerSymbol(x: nat)
    requires x < 26
    ensures |LOWER| == 26 && StdSymbol(26 + x) == LOWER[x]
  {
  }

  lemma DigitSymbol(x: nat)
    requires x < 10
    ensures |DIGITS| == 10 && StdSymbol(52 + x) == DIGITS[x]
  {
  }

  /** The alphabets of RFC 4648: table 1 for the encoder, table 2 for the decoder. */
  lemma AlphabetsAreStandard(x: Sextet)
    ensures |UPPER + LOWER + DIGITS| == 62
    ensures StdSymbol(x) == if x < 62 then (UPPER + LOWER + DIGITS)[x] else if x == 62 then '+' else '/'
    ensures UrlValue(if x < 62 then (UPPER + LOWER + DIGITS)[x] else if x == 62 then '-' else '_') == Some(x)
  {
    if x < 26 {
      UpperSymbol(x);
    } else if x < 52 {
      LowerSymbol(x - 26);
    } else if x < 62 {
      DigitSymbol(x - 52);
    }
    assert |UPPER| == 26 && |LOWER| == 26 && |DIGITS| == 10;
    hide StdSymbol, UrlValue;
  }

  /** The URL-safe form of a symbol. */
  function UrlOf(c: char): char {
    if c == '+' then '-' else if c == '/' then '_' else c
  }

  function UrlGroup(g: string): string
    requires IsBytes(g) && 1 <= |g| <= 3
  {
    var e := EncodeGroup(g);
    [UrlOf(e[0]), UrlOf(e[1]), UrlOf(e[2]), UrlOf(e[3])]
  }

  /** The same output in the alphabet that the decoder reads. */
  function EncodeUrl(d: string): string
    requires IsBytes(d)
  {
    if d == [] then []
    else if |d| <= 3 then UrlGroup(d)
    else UrlGroup(d[..3]) + EncodeUrl(d[3..])
  }

  lemma UrlReadsBack(x: Sextet)
    ensures UrlValue(UrlOf(StdSymbol(x))) == Some(x)
  {
  }

  /** A quantum of four symbols of the alphabet. */
  lemma DecodeFull(s: string, v0: Sextet, v1: Sextet, v2: Sextet, v3: Sextet)
    requires |s| >= 4 && UrlValue(s[0]) == Some(v0) && UrlValue(s[1]) == Some(v1)
    requires UrlValue(s[2]) == Some(v2) && UrlValue(s[3]) == Some(v3)
    ensures var rest := DecodeSymbols(s[4..]);
            DecodeSymbols(s) == Decoded([FirstByte(v0, v1), SecondByte(v1, v2), ThirdByte(v2, v3)] + rest.bytes, rest.ok)
  {
    hide UrlValue, FirstByte, SecondByte, ThirdByte;
  }

  /** A quantum with padding: its bytes, and an error if anything follows. */
  lemma DecodePadded(s: string, v0: Sextet, v1: Sextet)
    requires |s| >= 4 && UrlValue(s[0]) == Some(v0) && UrlValue(s[1]) == Some(v1) && s[3] == '='
    ensures s[2] == '=' ==> DecodeSymbols(s) == Decoded([FirstByte(v0, v1)], |s| == 4)
    ensures UrlValue(s[2]).Some? ==>
              DecodeSymbols(s) == Decoded([FirstByte(v0, v1), SecondByte(v1, UrlValue(s[2]).value)], |s| == 4)
  {
    assert UrlValue('=') == None;
    hide UrlValue, FirstByte, SecondByte, ThirdByte;
  }

  lemma UrlSymbolsOf(g: string)
    requires IsBytes(g) && 1 <= |g| <= 3
    ensures var q := QuantumOf(g);
            && UrlValue(UrlGroup(g)[0]) == Some(q.v0) && UrlValue(UrlGroup(g)[1]) == Some(q.v1)
            && (if |g| > 1 then UrlValue(UrlGroup(g)[2]) == Some(q.v2) else UrlGroup(g)[2] == '=')
            && (if |g| > 2 then UrlValue(UrlGroup(g)[3]) == Some(q.v3) else UrlGroup(g)[3] == '=')
  {
    var q := QuantumOf(g);
    UrlReadsBack(q.v0);
    UrlReadsBack(q.v1);
    UrlReadsBack(q.v2);
    UrlReadsBack(q.v3);
    assert UrlOf('=') == '=';
    hide UrlOf, UrlValue, StdSymbol, QuantumOf, IsBytes;
  }

  lemma DecodeUrlGroup(g: string, rest: string)
    requires IsBytes(g) && 1 <= |g| <= 3
    ensures var d := DecodeSymbols(UrlGroup(g) + rest);
            if |g| == 3 then d == Decoded(g + DecodeSymbols(rest).bytes, DecodeSymbols(rest).ok)
            else d == Decoded(g, rest == [])
  {
    var q, s := QuantumOf(g), UrlGroup(g) + rest;
    QuantumInverse(g);
    UrlSymbolsOf(g);
    assert |UrlGroup(g)| == 4 && s[4..] == rest;
    hide DecodeSymbols, UrlGroup, UrlValue, QuantumOf, FirstByte, SecondByte, ThirdByte, IsBytes;
    assert forall i :: 0 <= i < 4 ==> s[i] == UrlGroup(g)[i];
    if |g| == 3 {
      DecodeFull(s, q.v0, q.v1, q.v2, q.v3);
      assert [g[0], g[1], g[2]] == g;
    } else {
      DecodePadded(s, q.v0, q.v1);
      assert if |g| == 1 then [g[0]] == g else [g[0], g[1]] == g;
    }
  }

  lemma EncodeUrlStep(d: string)
    requires IsBytes(d) && |d| > 3
    ensures IsBytes(d[..3]) && IsBytes(d[3..]) && EncodeUrl(d) == UrlGroup(d[..3]) + EncodeUrl(d[3..])
  {
  }

  lemma DecodeUrlStep(d: string, tail: string)
    requires IsBytes(d) && |d| > 3 && IsBytes(d[3..])
    requires DecodeSymbols(EncodeUrl(d[3..]) + tail) == Decoded(d[3..] + DecodeSymbols(tail).bytes, DecodeSymbols(tail).ok)
    ensures DecodeSymbols(EncodeUrl(d) + tail) == Decoded(d + DecodeSymbols(tail).bytes, DecodeSymbols(tail).ok)
  {
    hide DecodeSymbols, UrlGroup, EncodeUrl, IsBytes;
    EncodeUrlStep(d);
    var g, rest := d[..3], d[3..];
    DecodeUrlGroup(g, EncodeUrl(rest) + tail);
    Associate(UrlGroup(g), EncodeUrl(rest), tail);
    Associate(g, rest, DecodeSymbols(tail).bytes);
    assert d == g + rest;
  }

  /** The decoder on any text: whole groups of the URL-safe alphabet are read, and what follows them is
      read as it would be by itself; so with a matching encoder nothing would be lost. */
  lemma {:induction false} DecodeOfEncodeUrl(d: string, tail: string)
    requires IsBytes(d)
    requires |d| % 3 == 0 || tail == []
    ensures DecodeSymbols(EncodeUrl(d) + tail) == Decoded(d + DecodeSymbols(tail).bytes, DecodeSymbols(tail).ok)
  {
    DecodeNothing();
    hide DecodeSymbols, UrlGroup, IsBytes;
    if d == [] {
      assert EncodeUrl(d) + tail == tail && d + DecodeSymbols(tail).bytes == DecodeSymbols(tail).bytes;
    } else if |d| <= 3 {
      DecodeUrlGroup(d, tail);
      assert d + [] == d;
    } else {
      BytesOfParts(d, []);
      DecodeOfEncodeUrl(d[3..], tail);
      DecodeUrlStep(d, tail);
    }
  }

  /** The text ends within a quantum, or its first quantum has a bad symbol: the first two must be of the
      alphabet, the other two of it or padding at the end. */
  predicate IsBadStart(s: string) {
    && s != []
    && (|s| < 4
        || UrlValue(s[0]).None? || UrlValue(s[1]).None?
        || (UrlValue(s[2]).None? && !(s[2] == '=' && s[3] == '='))
        || (UrlValue(s[2]).Some? && UrlValue(s[3]).None? && s[3] != '='))
  }

  /** A bad start yields nothing and an error, so before it exactly the whole groups are kept. */
  lemma BadStartEndsTheOutput(d: string, tail: string)
    requires IsBytes(d) && |d| % 3 == 0 && IsBadStart(tail)
    ensures DecodeSymbols(EncodeUrl(d) + tail) == Decoded(d, false)
  {
    DecodeOfEncodeUrl(d, tail);
    hide EncodeUrl, IsBytes;
    assert d + [] == d;
  }

  /** Line breaks are skipped wherever they stand. */
  lemma {:induction false} BreaksAreSkipped(a: string, b: string, c: char)
    requires c == '\n' || c == '\r'
    ensures Decode(a + [c] + b) == Decode(a + b)
  {
    WithoutOneBreak(a, b, c);
  }

  lemma {:induction false} WithoutOneBreak(a: string, b: string, c: char)
    requires c == '\n' || c == '\r'
    ensures WithoutBreaks(a + [c] + b) == WithoutBreaks(a + b)
  {
    if a == [] {
      assert a + [c] + b == [c] + b && a + b == b && ([c] + b)[1..] == b;
    } else {
      assert (a + [c] + b)[1..] == a[1..] + [c] + b && (a + b)[1..] == a[1..] + b;
      WithoutOneBreak(a[1..], b, c);
    }
  }
}
