/** The Go string functions the configuration readers and writers are built from.  A string is
    a sequence of code points. */
module Text {
  import opened Common

  // ---------------------------------------------------------------- trimming

  /** unicode.IsSpace */
  predicate IsSpace(c: char) {
    var n := c as int;
    || 9 <= n <= 13 || n == 32 || n == 0x85 || n == 0xA0 || n == 0x1680
    || 0x2000 <= n <= 0x200A || n == 0x2028 || n == 0x2029 || n == 0x202F || n == 0x205F || n == 0x3000
  }

  function TrimLeft(s: string): string {
    if s != "" && IsSpace(s[0]) then TrimLeft(s[1..]) else s
  }

  function TrimRight(s: string): string {
    if s != "" && IsSpace(s[|s| - 1]) then TrimRight(s[..|s| - 1]) else s
  }

  /** strings.TrimSpace */
  function TrimSpace(s: string): string {
    TrimRight(TrimLeft(s))
  }

  /** No space at either end. */
  predicate Trimmed(s: string) {
    s == "" || (!IsSpace(s[0]) && !IsSpace(s[|s| - 1]))
  }

  lemma {:induction false} TrimLeftSuffix(s: string)
    ensures var t := TrimLeft(s); |t| <= |s| && t == s[|s| - |t|..] && (t == "" || !IsSpace(t[0]))
  {
    if s != "" && IsSpace(s[0]) { TrimLeftSuffix(s[1..]); }
  }

  lemma {:induction false} TrimRightPrefix(s: string)
    ensures var t := TrimRight(s); t <= s && (t == "" || !IsSpace(t[|t| - 1]))
  {
    if s != "" && IsSpace(s[|s| - 1]) { TrimRightPrefix(s[..|s| - 1]); }
  }

  /** Trimming yields a trimmed piece of the string. */
  lemma TrimSpaceTrims(s: string)
    ensures Trimmed(TrimSpace(s)) && (forall c | c in TrimSpace(s) :: c in s)
  {
    TrimLeftSuffix(s);
    TrimRightPrefix(TrimLeft(s));
  }

  lemma TrimSpaceFixes(s: string)
    requires Trimmed(s)
    ensures TrimSpace(s) == s
  {
  }

  predicate Blank(s: string) {
    forall c | c in s :: IsSpace(c)
  }

  lemma {:induction false} TrimLeftCuts(s: string) returns (a: string)
    ensures Blank(a) && s == a + TrimLeft(s)
  {
    a := "";
    if s != "" && IsSpace(s[0]) {
      var b := TrimLeftCuts(s[1..]);
      a := [s[0]] + b;
    }
  }

  lemma {:induction false} TrimRightCuts(s: string) returns (b: string)
    ensures Blank(b) && s == TrimRight(s) + b
  {
    b := "";
    if s != "" && IsSpace(s[|s| - 1]) {
      var a := TrimRightCuts(s[..|s| - 1]);
      b := a + [s[|s| - 1]];
    }
  }

  /** Trimming takes away spaces at the two ends and nothing else. */
  lemma TrimSpaceCuts(s: string) returns (a: string, b: string)
    ensures Blank(a) && Blank(b) && s == a + TrimSpace(s) + b && Trimmed(TrimSpace(s))
  {
    a := TrimLeftCuts(s);
    b := TrimRightCuts(TrimLeft(s));
    TrimSpaceTrims(s);
  }

  // ---------------------------------------------------------------- splitting

  function IndexOf(s: string, c: char): (i: nat)
    ensures i <= |s| && c !in s[..i] && (i < |s| ==> s[i] == c)
  {
    if s == "" || s[0] == c then 0 else
    var i := IndexOf(s[1..], c);
    assert s[..1 + i] == [s[0]] + s[1..][..i];
    1 + i
  }

  /** strings.Split by one character */
  function Split(s: string, c: char): (parts: seq<string>)
    ensures |parts| >= 1
    decreases |s|
  {
    var i := IndexOf(s, c);
    if i == |s| then [s] else [s[..i]] + Split(s[i + 1..], c)
  }

  /** strings.SplitN by one character: at most n parts, the last one unsplit */
  function SplitN(s: string, c: char, n: nat): (parts: seq<string>)
    requires n >= 1
    ensures 1 <= |parts| <= n
    decreases n
  {
    var i := IndexOf(s, c);
    if n == 1 || i == |s| then [s] else [s[..i]] + SplitN(s[i + 1..], c, n - 1)
  }

  /** strings.Cut by one character */
  function Cut(s: string, c: char): (string, string, bool) {
    var i := IndexOf(s, c);
    if i == |s| then (s, "", false) else (s[..i], s[i + 1..], true)
  }

  function Join(parts: seq<string>, c: char): string {
    if parts == [] then "" else if |parts| == 1 then parts[0] else parts[0] + [c] + Join(parts[1..], c)
  }

  lemma IndexOfSeparator(a: string, c: char, b: string)
    requires c !in a
    ensures IndexOf(a + [c] + b, c) == |a|
    ensures (a + [c] + b)[..|a|] == a && (a + [c] + b)[|a| + 1..] == b
  {
    var s, i := a + [c] + b, IndexOf(a + [c] + b, c);
    assert s[|a|] == c;
    assert s[..|a|] == a;
    assert i <= |a|;
    assert s[i] !in a || i == |a|;
  }

  lemma IndexOfAbsent(s: string, c: char)
    requires c !in s
    ensures IndexOf(s, c) == |s|
  {
  }

  lemma SplitSeparator(a: string, c: char, b: string)
    requires c !in a
    ensures Split(a + [c] + b, c) == [a] + Split(b, c)
    ensures Cut(a + [c] + b, c) == (a, b, true)
    ensures forall n: nat | n >= 2 :: SplitN(a + [c] + b, c, n) == [a] + SplitN(b, c, n - 1)
  {
    IndexOfSeparator(a, c, b);
  }

  lemma CutJoins(s: string, c: char)
    requires Cut(s, c).2
    ensures s == Cut(s, c).0 + [c] + Cut(s, c).1 && c !in Cut(s, c).0
  {
  }

  lemma SplitAbsent(s: string, c: char)
    requires c !in s
    ensures Split(s, c) == [s]
    ensures forall n: nat | n >= 1 :: SplitN(s, c, n) == [s]
  {
  }

  /** Splitting and joining are inverse. */
  lemma {:induction false} JoinSplit(s: string, c: char)
    ensures Join(Split(s, c), c) == s
    ensures forall p | p in Split(s, c) :: c !in p
    decreases |s|
  {
    var i := IndexOf(s, c);
    if i < |s| {
      JoinSplit(s[i + 1..], c);
      assert s == s[..i] + [c] + s[i + 1..];
      assert Split(s, c)[1..] == Split(s[i + 1..], c);
    }
  }

  lemma {:induction false} SplitJoin(parts: seq<string>, c: char)
    requires parts != [] && forall p | p in parts :: c !in p
    ensures Split(Join(parts, c), c) == parts
  {
    if |parts| == 1 {
      SplitAbsent(parts[0], c);
    } else {
      SplitJoin(parts[1..], c);
      SplitSeparator(parts[0], c, Join(parts[1..], c));
    }
  }

  /** A separator that occurs in neither head decides the heads and the tails. */
  lemma HeadsAgree(a: string, b: string, c: char, x: string, y: string)
    requires c !in a && c !in b && a + [c] + x == b + [c] + y
    ensures a == b && x == y
  {
    IndexOfSeparator(a, c, x);
    IndexOfSeparator(b, c, y);
  }

  // ---------------------------------------------------------------- lines

  function DropCarriageReturn(s: string): string {
    if s != "" && s[|s| - 1] == '\r' then s[..|s| - 1] else s
  }

  /** The tokens of a bufio.Scanner with ScanLines. */
  function Lines(text: string): seq<string>
    decreases |text|
  {
    if text == "" then [] else
    var i := IndexOf(text, '\n');
    [DropCarriageReturn(text[..i])] + (if i == |text| then [] else Lines(text[i + 1..]))
  }

  lemma LinesCons(line: string, rest: string)
    requires '\n' !in line
    ensures Lines(line + "\n" + rest) == [DropCarriageReturn(line)] + Lines(rest)
  {
    assert "\n" == ['\n'];
    IndexOfSeparator(line, '\n', rest);
  }

  /** A last line without a line feed is a line all the same. */
  lemma LinesLast(line: string)
    requires '\n' !in line && line != ""
    ensures Lines(line) == [DropCarriageReturn(line)]
    ensures Lines(line + "\n") == [DropCarriageReturn(line)]
  {
    IndexOfAbsent(line, '\n');
    assert line[..|line|] == line;
    LinesCons(line, "");
    assert line + "\n" + "" == line + "\n";
  }

  /** One carriage return before the line end is not part of the line. */
  lemma CarriageReturnDropped(line: string)
    ensures DropCarriageReturn(line + "\r") == line
    ensures (line == "" || line[|line| - 1] != '\r') ==> DropCarriageReturn(line) == line
  {
    assert (line + "\r")[..|line|] == line;
  }

  lemma {:induction false} LinesAreLines(text: string)
    ensures forall l | l in Lines(text) :: '\n' !in l && forall c | c in l :: c in text
    decreases |text|
  {
    if text != "" {
      var i := IndexOf(text, '\n');
      if i < |text| { LinesAreLines(text[i + 1..]); }
    }
  }

  /** The readers skip blank lines and comments. */
  predicate Skipped(line: string) {
    line == "" || "#" <= line || "//" <= line
  }

  /** The trimmed lines a reader looks at. */
  function Kept(lines: seq<string>): seq<string> {
    if lines == [] then [] else
    var line := TrimSpace(lines[0]);
    (if Skipped(line) then [] else [line]) + Kept(lines[1..])
  }

  lemma {:induction false} KeptAppend(lines: seq<string>, line: string)
    ensures Kept(lines + [line]) == Kept(lines) + if Skipped(TrimSpace(line)) then [] else [TrimSpace(line)]
  {
    if lines == [] {
      assert [line][1..] == [];
    } else {
      assert (lines + [line])[1..] == lines[1..] + [line];
      KeptAppend(lines[1..], line);
    }
  }

  lemma {:induction false} KeptPrefix(lines: seq<string>, n: nat)
    requires n <= |lines|
    ensures Kept(lines[..n]) <= Kept(lines)
  {
    if n > 0 {
      assert lines[..n][1..] == lines[1..][..n - 1];
      KeptPrefix(lines[1..], n - 1);
    }
  }

  /** One more line read. */
  lemma StepKept(lines: seq<string>, n: nat)
    requires n < |lines|
    ensures
      var line, m := TrimSpace(lines[n]), |Kept(lines[..n])|;
      && Kept(lines[..n + 1]) == Kept(lines[..n]) + (if Skipped(line) then [] else [line])
      && (!Skipped(line) ==> m < |Kept(lines)| && Kept(lines)[..m] == Kept(lines[..n]) && Kept(lines)[m] == line)
  {
    assert lines[..n + 1] == lines[..n] + [lines[n]];
    KeptAppend(lines[..n], lines[n]);
    KeptPrefix(lines, n);
    KeptPrefix(lines, n + 1);
  }

  /** Each line followed by a line feed. */
  function Unlines(lines: seq<string>): string {
    if lines == [] then "" else lines[0] + "\n" + Unlines(lines[1..])
  }

  lemma {:induction false} UnlinesAppend(lines: seq<string>, line: string)
    ensures Unlines(lines + [line]) == Unlines(lines) + line + "\n"
  {
    if lines == [] {
      assert [line][1..] == [];
    } else {
      assert (lines + [line])[1..] == lines[1..] + [line];
      UnlinesAppend(lines[1..], line);
    }
  }

  /** Lines that are trimmed, not skipped and without line feeds are read back as written. */
  lemma {:induction false} UnlinesRoundTrip(lines: seq<string>)
    requires forall l | l in lines :: Trimmed(l) && !Skipped(l) && '\n' !in l
    ensures Kept(Lines(Unlines(lines))) == lines
  {
    if lines != [] {
      var line := lines[0];
      assert line in lines && line[|line| - 1] != '\r';
      LinesCons(line, Unlines(lines[1..]));
      UnlinesRoundTrip(lines[1..]);
      TrimSpaceFixes(line);
      var rest := Lines(Unlines(lines[1..]));
      assert ([line] + rest)[1..] == rest;
    }
  }

  // ---------------------------------------------------------------- decimal numbers

  predicate IsDigit(c: char) {
    '0' <= c <= '9'
  }

  predicate AllDigits(s: string) {
    forall c | c in s :: IsDigit(c)
  }

  function Digit(n: nat): (c: char)
    requires n < 10
    ensures IsDigit(c) && c as int - '0' as int == n
  {
    ('0' as int + n) as char
  }

  function DigitValue(c: char): (n: nat)
    requires IsDigit(c)
    ensures n < 10 && Digit(n) == c
  {
    c as int - '0' as int
  }

  /** The number a string of digits denotes. */
  function Value(s: string): nat
    requires AllDigits(s)
  {
    if s == "" then 0 else Value(s[..|s| - 1]) * 10 + DigitValue(s[|s| - 1])
  }

  /** strconv.Itoa on a natural number */
  function Itoa(n: nat): string {
    if n < 10 then [Digit(n)] else Itoa(n / 10) + [Digit(n % 10)]
  }

  /** Printing a number and reading it back. */
  lemma {:induction false} ItoaValue(n: nat)
    ensures Itoa(n) != "" && AllDigits(Itoa(n)) && Value(Itoa(n)) == n
    ensures n > 0 ==> Itoa(n)[0] != '0'
  {
    if n >= 10 {
      ItoaValue(n / 10);
      var s := Itoa(n);
      assert s[..|s| - 1] == Itoa(n / 10) && s[|s| - 1] == Digit(n % 10);
      forall c | c in s ensures IsDigit(c) {
        if c !in Itoa(n / 10) { assert c == Digit(n % 10); }
      }
    } else {
      assert Itoa(n)[..0] == "";
    }
  }

  /** Reading digits without a leading zero and printing them again. */
  lemma {:induction false} CanonicalDigits(s: string)
    requires s != "" && AllDigits(s) && (|s| > 1 ==> s[0] != '0')
    ensures Itoa(Value(s)) == s
  {
    var p, c := s[..|s| - 1], s[|s| - 1];
    assert s == p + [c];
    if p != "" {
      CanonicalDigits(p);
      if Value(p) == 0 { assert false; }
      assert Value(s) / 10 == Value(p) && Value(s) % 10 == DigitValue(c);
    }
  }

  /** Decimal digits, most significant first. */
  lemma ItoaDigits(n: nat, d: nat)
    requires d < 10
    ensures Itoa(d) == ["0123456789"[d]]
    ensures n > 0 ==> Itoa(10 * n + d) == Itoa(n) + ["0123456789"[d]]
  {
  }

  const MAX_INT64: nat := 0x7FFF_FFFF_FFFF_FFFF
  const MAX_UINT64: nat := 0xFFFF_FFFF_FFFF_FFFF
  const MAX_UINT32: nat := 0xFFFF_FFFF

  /** strconv.ParseUint in base 10 for the given largest value */
  function ParseUint(s: string, max: nat): Option<nat> {
    if s == "" || !AllDigits(s) || Value(s) > max then None else Some(Value(s))
  }

  /** strconv.Atoi, with 64-bit integers */
  function Atoi(s: string): Option<int> {
    if s != "" && s[0] == '-' then
      var r := ParseUint(s[1..], MAX_INT64 + 1);
      if r.Some? then Some(-(r.value as int)) else None
    else
      var r := ParseUint(if s != "" && s[0] == '+' then s[1..] else s, MAX_INT64);
      if r.Some? then Some(r.value as int) else None
  }

  lemma AtoiItoa(n: nat)
    requires n <= MAX_INT64
    ensures Atoi(Itoa(n)) == Some(n)
  {
    ItoaValue(n);
    assert Itoa(n)[0] in Itoa(n);
  }

  lemma DigitsAreTrimmed(s: string)
    requires s != "" && AllDigits(s)
    ensures Trimmed(s)
  {
    assert s[0] in s && s[|s| - 1] in s;
  }
}
