/** encoding/base64: the standard alphabet of section 4 of RFC 4648, with padding (StdEncoding)
    and without (RawStdEncoding). */
module Base64 {
  import opened Common
  import opened Text

  type byte = n: int | 0 <= n < 256

  predicate InAlphabet(c: char) {
    'A' <= c <= 'Z' || 'a' <= c <= 'z' || '0' <= c <= '9' || c == '+' || c == '/'
  }

  predicate AllAlphabet(s: string) {
    forall c | c in s :: InAlphabet(c)
  }

  /** Table 1 of the standard and its inverse. */
  function Letter(n: nat): (c: char)
    requires n < 64
    ensures InAlphabet(c) && Sextet(c) == n
  {
    if n < 26 then ('A' as int + n) as char
    else if n < 52 then ('a' as int + n - 26) as char
    else if n < 62 then ('0' as int + n - 52) as char
    else if n == 62 then '+' else '/'
  }

  function Sextet(c: char): (n: nat)
    requires InAlphabet(c)
    ensures n < 64
  {
    if 'A' <= c <= 'Z' then c as int - 'A' as int
    else if 'a' <= c <= 'z' then c as int - 'a' as int + 26
    else if '0' <= c <= '9' then c as int - '0' as int + 52
    else if c == '+' then 62 else 63
  }

  const UPPER := "ABCDEFGHIJKLMNOPQRSTUVWXYZ"
  const LOWER := "abcdefghijklmnopqrstuvwxyz"
  const DIGITS := "0123456789"

  /** The letters are those of the standard's table, in its order. */
  lemma LetterTable(n: nat)
    requires n < 64
    ensures Letter(n) ==
      if n < 26 then UPPER[n] else if n < 52 then LOWER[n - 26] else if n < 62 then DIGITS[n - 52] else "+/"[n - 62]
  {
    if n < 26 { Upper(n); } else if n < 52 { Lower(n - 26); } else if n < 62 { Digit(n - 52); }
  }

  lemma Upper(n: nat)
    requires n < 26
    ensures UPPER[n] as int == 'A' as int + n
  {
    Consecutive(UPPER, n);
  }

  lemma Lower(n: nat)
    requires n < 26
    ensures LOWER[n] as int == 'a' as int + n
  {
    Consecutive(LOWER, n);
  }

  lemma Digit(n: nat)
    requires n < 10
    ensures DIGITS[n] as int == '0' as int + n
  {
    Consecutive(DIGITS, n);
  }

  /** In a row of consecutive characters the position tells the character. */
  lemma {:induction false} Consecutive(s: string, n: nat)
    requires n < |s| && forall i | 0 < i < |s| :: s[i] as int == s[i - 1] as int + 1
    ensures s[n] as int == s[0] as int + n
  {
    if n > 0 { Consecutive(s, n - 1); }
  }

  // ---------------------------------------------------------------- without padding

  /** RawStdEncoding.EncodeToString */
  function EncodeRaw(b: seq<byte>): string {
    if |b| == 0 then ""
    else if |b| == 1 then [Letter(b[0] / 4), Letter(b[0] % 4 * 16)]
    else if |b| == 2 then [Letter(b[0] / 4), Letter(b[0] % 4 * 16 + b[1] / 16), Letter(b[1] % 16 * 4)]
    else Quantum(b[0], b[1], b[2]) + EncodeRaw(b[3..])
  }

  function Quantum(x: byte, y: byte, z: byte): string {
    [Letter(x / 4), Letter(x % 4 * 16 + y / 16), Letter(y % 16 * 4 + z / 64), Letter(z % 64)]
  }

  /** Line breaks are skipped wherever they stand. */
  function SkipBreaks(s: string): string {
    if s == "" then "" else if s[0] in "\r\n" then SkipBreaks(s[1..]) else [s[0]] + SkipBreaks(s[1..])
  }

  lemma {:induction false} BreaksSkipped(a: string, b: string)
    ensures SkipBreaks(a + b) == SkipBreaks(a) + SkipBreaks(b)
  {
    if a == "" {
      assert a + b == b;
    } else {
      BreaksSkipped(a[1..], b);
      assert (a + b)[1..] == a[1..] + b && (a + b)[0] == a[0];
    }
  }

  lemma BreakSkipped(c: char)
    ensures SkipBreaks([c]) == if c == '\r' || c == '\n' then "" else [c]
  {
    assert SkipBreaks([c][1..]) == "";
    assert "\r\n" == ['\r', '\n'];
  }

  /** The decoder proper; bits beyond the last whole byte are ignored. */
  function DecodeQuanta(s: string): (b: seq<byte>)
    requires AllAlphabet(s) && |s| % 4 != 1
    ensures |b| == |s| * 3 / 4
  {
    if |s| == 0 then []
    else if |s| == 2 then [Byte1(s)]
    else if |s| == 3 then [Byte1(s), Byte2(s)]
    else [Byte1(s), Byte2(s), Byte3(s)] + DecodeQuanta(s[4..])
  }

  function Byte1(s: string): byte
    requires AllAlphabet(s) && |s| >= 2
  {
    Sextet(s[0]) * 4 + Sextet(s[1]) / 16
  }

  function Byte2(s: string): byte
    requires AllAlphabet(s) && |s| >= 3
  {
    Sextet(s[1]) % 16 * 16 + Sextet(s[2]) / 4
  }

  function Byte3(s: string): byte
    requires AllAlphabet(s) && |s| >= 4
  {
    Sextet(s[2]) % 4 * 64 + Sextet(s[3])
  }

  /** RawStdEncoding.DecodeString */
  function DecodeRaw(s: string): Option<seq<byte>> {
    var t := SkipBreaks(s);
    if AllAlphabet(t) && |t| % 4 != 1 then Some(DecodeQuanta(t)) else None
  }

  lemma {:induction false} SkipBreaksFixes(s: string)
    requires AllAlphabet(s)
    ensures SkipBreaks(s) == s
  {
    if s != "" {
      assert s[0] in s && s == [s[0]] + s[1..];
      SkipBreaksFixes(s[1..]);
    }
  }

  lemma {:induction false} EncodeRawAlphabet(b: seq<byte>)
    ensures AllAlphabet(EncodeRaw(b)) && |EncodeRaw(b)| == (|b| * 4 + 2) / 3
    ensures |EncodeRaw(b)| % 4 != 1
  {
    if |b| >= 3 { EncodeRawAlphabet(b[3..]); }
  }

  lemma {:induction false} DecodeEncodedQuanta(b: seq<byte>)
    requires AllAlphabet(EncodeRaw(b)) && |EncodeRaw(b)| % 4 != 1
    ensures DecodeQuanta(EncodeRaw(b)) == b
  {
    if |b| >= 3 {
      EncodeRawAlphabet(b[3..]);
      DecodeEncodedQuanta(b[3..]);
      var rest := EncodeRaw(b[3..]);
      var t := Quantum(b[0], b[1], b[2]);
      QuantumBytes(b[0], b[1], b[2]);
      hide Letter, Sextet, DecodeQuanta, Quantum, AllAlphabet;
      assert EncodeRaw(b) == t + rest;
      QuantaStep(t, rest);
      assert b == [b[0], b[1], b[2]] + b[3..];
    } else {
      DecodeEncodedShort(b);
    }
  }

  lemma DecodeEncodedShort(b: seq<byte>)
    requires |b| < 3 && AllAlphabet(EncodeRaw(b)) && |EncodeRaw(b)| % 4 != 1
    ensures DecodeQuanta(EncodeRaw(b)) == b
  {
    if |b| == 1 {
      Regroup(b[0], 0, 0);
    } else if |b| == 2 {
      Regroup(b[0], b[1], 0);
    }
    hide Letter, Sextet;
  }

  /** One full quantum decodes to its three bytes. */
  lemma QuantumBytes(x: byte, y: byte, z: byte)
    ensures var t := Quantum(x, y, z); |t| == 4 && AllAlphabet(t) && DecodeQuanta(t) == [x, y, z]
  {
    QuantumSextets(x, y, z);
    QuantumDecodes(Quantum(x, y, z), x, y, z);
  }

  lemma QuantumSextets(x: byte, y: byte, z: byte)
    ensures
      var t := Quantum(x, y, z);
      && |t| == 4 && AllAlphabet(t)
      && Sextet(t[0]) == x / 4 && Sextet(t[1]) == x % 4 * 16 + y / 16
      && Sextet(t[2]) == y % 16 * 4 + z / 64 && Sextet(t[3]) == z % 64
  {
    hide Letter, Sextet;
  }

  lemma QuantumDecodes(t: string, x: byte, y: byte, z: byte)
    requires |t| == 4 && AllAlphabet(t)
    requires Sextet(t[0]) == x / 4 && Sextet(t[1]) == x % 4 * 16 + y / 16
    requires Sextet(t[2]) == y % 16 * 4 + z / 64 && Sextet(t[3]) == z % 64
    ensures DecodeQuanta(t) == [x, y, z]
  {
    Regroup(x, y, z);
    assert t[4..] == "";
  }

  /** Three bytes cut into four sextets and put together again. */
  lemma Regroup(x: byte, y: byte, z: byte)
    ensures
      var a, b, c, d := x / 4, x % 4 * 16 + y / 16, y % 16 * 4 + z / 64, z % 64;
      a * 4 + b / 16 == x && b % 16 * 16 + c / 4 == y && c % 4 * 64 + d == z
  {
  }

  lemma QuantaStep(t: string, rest: string)
    requires |t| == 4 && AllAlphabet(t) && AllAlphabet(rest) && AllAlphabet(t + rest)
    requires |rest| % 4 != 1 && |t + rest| % 4 != 1
    ensures DecodeQuanta(t + rest) == DecodeQuanta(t) + DecodeQuanta(rest)
  {
    var s := t + rest;
    assert DecodeQuanta("") == [];
    hide *;
    assert s[4..] == rest && t[4..] == "" && |s| == 4 + |rest|;
    SameBytes(s, t);
    DecodeHead(s);
    DecodeHead(t);
  }

  lemma SameBytes(s: string, t: string)
    requires |t| == 4 && t <= s && AllAlphabet(s) && AllAlphabet(t)
    ensures Byte1(s) == Byte1(t) && Byte2(s) == Byte2(t) && Byte3(s) == Byte3(t)
  {
    hide Sextet, AllAlphabet;
    assert s[0] == t[0] && s[1] == t[1] && s[2] == t[2] && s[3] == t[3];
  }

  /** Decoding inverts encoding on every byte string. */
  lemma RoundTrip(b: seq<byte>)
    ensures DecodeRaw(EncodeRaw(b)) == Some(b)
  {
    EncodeRawAlphabet(b);
    SkipBreaksFixes(EncodeRaw(b));
    DecodeEncodedQuanta(b);
  }

  /** The text with the bits beyond the last whole byte cleared. */
  function Cleared(t: string): string
    requires AllAlphabet(t)
  {
    if |t| % 4 == 0 then t else
    var n := |t| - 1;
    var unit := if |t| % 4 == 3 then 4 else 16;
    t[..n] + [Letter(Sextet(t[n]) / unit * unit)]
  }

  /** A text decodes, line breaks aside, iff it is in the alphabet and not one letter too long, and
      then to the bytes whose encoding it is. */
  lemma DecodesIff(s: string, b: seq<byte>)
    ensures DecodeRaw(s) == Some(b) <==>
            var t := SkipBreaks(s); AllAlphabet(t) && |t| % 4 != 1 && EncodeRaw(b) == Cleared(t)
  {
    var t := SkipBreaks(s);
    if AllAlphabet(t) && |t| % 4 != 1 {
      EncodeDecodedQuanta(t);
      RoundTrip(b);
      RoundTrip(DecodeQuanta(t));
    }
    hide DecodeQuanta, EncodeRaw, Cleared;
  }

  lemma {:induction false} EncodeDecodedQuanta(t: string)
    requires AllAlphabet(t) && |t| % 4 != 1
    ensures EncodeRaw(DecodeQuanta(t)) == Cleared(t)
  {
    hide *;
    if |t| >= 4 {
      TailAlphabet(t, 4);
      EncodeDecodedQuanta(t[4..]);
      var x, y, z := Byte1(t), Byte2(t), Byte3(t);
      DecodeHead(t);
      FirstQuantum(t);
      EncodeStep(x, y, z, DecodeQuanta(t[4..]));
      assert t == t[..4] + t[4..];
      ClearedStep(t[..4], t[4..]);
    } else {
      EncodeDecodedShort(t);
    }
  }

  lemma DecodeHead(t: string)
    requires AllAlphabet(t) && |t| >= 4 && |t| % 4 != 1 && AllAlphabet(t[4..])
    ensures DecodeQuanta(t) == [Byte1(t), Byte2(t), Byte3(t)] + DecodeQuanta(t[4..])
  {
    hide AllAlphabet, Byte1, Byte2, Byte3;
  }

  lemma TailAlphabet(t: string, n: nat)
    requires AllAlphabet(t) && n <= |t|
    ensures AllAlphabet(t[..n]) && AllAlphabet(t[n..])
  {
  }

  lemma EncodeStep(x: byte, y: byte, z: byte, rest: seq<byte>)
    ensures EncodeRaw([x, y, z] + rest) == Quantum(x, y, z) + EncodeRaw(rest)
  {
    assert ([x, y, z] + rest)[3..] == rest;
  }

  lemma ClearedStep(q: string, rest: string)
    requires |q| == 4 && AllAlphabet(q) && AllAlphabet(rest) && AllAlphabet(q + rest)
    ensures Cleared(q + rest) == q + Cleared(rest)
  {
    hide Letter, Sextet;
    if |rest| % 4 != 0 { assert (q + rest)[..4 + |rest| - 1] == q + rest[..|rest| - 1]; }
  }

  lemma SameLetter(c: char)
    requires InAlphabet(c)
    ensures Letter(Sextet(c)) == c
  {
  }

  lemma LettersAgain(i: nat, j: nat, k: nat, l: nat)
    requires i < 64 && j < 64 && k < 64 && l < 64
    ensures Quantum(i * 4 + j / 16, j % 16 * 16 + k / 4, k % 4 * 64 + l) == [Letter(i), Letter(j), Letter(k), Letter(l)]
  {
    hide Letter, Quantum;
    Ungroup(i, j, k, l);
    QuantumLetters(i * 4 + j / 16, j % 16 * 16 + k / 4, k % 4 * 64 + l, i, j, k, l);
  }

  /** The four letters a text begins with, from the three bytes they decode to. */
  lemma FirstQuantum(t: string)
    requires AllAlphabet(t) && |t| >= 4
    ensures Quantum(Byte1(t), Byte2(t), Byte3(t)) == t[..4]
  {
    hide Letter, Sextet, Quantum;
    SameLetter(t[0]);
    SameLetter(t[1]);
    SameLetter(t[2]);
    SameLetter(t[3]);
    LettersAgain(Sextet(t[0]), Sextet(t[1]), Sextet(t[2]), Sextet(t[3]));
  }

  lemma QuantumLetters(x: byte, y: byte, z: byte, i: nat, j: nat, k: nat, l: nat)
    requires i < 64 && j < 64 && k < 64 && l < 64
    requires x / 4 == i && x % 4 * 16 + y / 16 == j && y % 16 * 4 + z / 64 == k && z % 64 == l
    ensures Quantum(x, y, z) == [Letter(i), Letter(j), Letter(k), Letter(l)]
  {
    hide Letter;
  }

  lemma Ungroup(i: nat, j: nat, k: nat, l: nat)
    requires i < 64 && j < 64 && k < 64 && l < 64
    ensures
      var (x, y, z) := (i * 4 + j / 16, j % 16 * 16 + k / 4, k % 4 * 64 + l);
      x / 4 == i && x % 4 * 16 + y / 16 == j && y % 16 * 4 + z / 64 == k && z % 64 == l
  {
  }

  lemma EncodeDecodedShort(t: string)
    requires AllAlphabet(t) && |t| < 4 && |t| != 1
    ensures EncodeRaw(DecodeQuanta(t)) == Cleared(t)
  {
    if |t| == 2 {
      DecodeTwo(t);
      hide *;
      EncodeTwo(Byte1(t), Sextet(t[0]), Sextet(t[1]));
    } else if |t| == 3 {
      DecodeThree(t);
      hide *;
      EncodeThree(Byte1(t), Byte2(t), Sextet(t[0]), Sextet(t[1]), Sextet(t[2]));
    } else {
      assert DecodeQuanta(t) == [] && Cleared(t) == t;
      hide *;
      EncodeRawAlphabet([]);
    }
  }

  lemma DecodeTwo(t: string)
    requires AllAlphabet(t) && |t| == 2
    ensures DecodeQuanta(t) == [Byte1(t)] && Byte1(t) == Sextet(t[0]) * 4 + Sextet(t[1]) / 16
    ensures Cleared(t) == [Letter(Sextet(t[0]))] + [Letter(Sextet(t[1]) / 16 * 16)]
  {
    SameLetter(t[0]);
    assert t[..1] == [t[0]];
    hide Letter, Sextet;
  }

  lemma DecodeThree(t: string)
    requires AllAlphabet(t) && |t| == 3
    ensures DecodeQuanta(t) == [Byte1(t), Byte2(t)]
    ensures Byte1(t) == Sextet(t[0]) * 4 + Sextet(t[1]) / 16 && Byte2(t) == Sextet(t[1]) % 16 * 16 + Sextet(t[2]) / 4
    ensures Cleared(t) == [Letter(Sextet(t[0]))] + [Letter(Sextet(t[1]))] + [Letter(Sextet(t[2]) / 4 * 4)]
  {
    SameLetter(t[0]);
    SameLetter(t[1]);
    assert t[..2] == [t[0]] + [t[1]];
    hide Letter, Sextet;
  }

  lemma EncodeTwo(x: byte, i: nat, j: nat)
    requires i < 64 && j < 64 && x == i * 4 + j / 16
    ensures EncodeRaw([x]) == [Letter(i)] + [Letter(j / 16 * 16)]
  {
    hide Letter;
    Ungroup(i, j / 16 * 16, 0, 0);
  }

  lemma EncodeThree(x: byte, y: byte, i: nat, j: nat, k: nat)
    requires i < 64 && j < 64 && k < 64 && x == i * 4 + j / 16 && y == j % 16 * 16 + k / 4
    ensures EncodeRaw([x, y]) == [Letter(i)] + [Letter(j)] + [Letter(k / 4 * 4)]
  {
    Ungroup(i, j, k / 4 * 4, 0);
    assert k / 4 * 4 / 4 == k / 4;
    assert x / 4 == i && x % 4 * 16 + y / 16 == j && y % 16 * 4 == k / 4 * 4;
    assert EncodeRaw([x, y]) == [Letter(x / 4), Letter(x % 4 * 16 + y / 16), Letter(y % 16 * 4)];
    hide Letter, EncodeRaw;
  }

  // ---------------------------------------------------------------- with padding

  function Unpadded(t: string): string {
    if |t| >= 2 && t[|t| - 2..] == "==" then t[..|t| - 2]
    else if |t| >= 1 && t[|t| - 1] == '=' then t[..|t| - 1]
    else t
  }

  /** StdEncoding.DecodeString */
  function DecodeStd(s: string): Option<seq<byte>> {
    var t := SkipBreaks(s);
    if |t| % 4 != 0 || !AllAlphabet(Unpadded(t)) || |Unpadded(t)| % 4 == 1 then None
    else Some(DecodeQuanta(Unpadded(t)))
  }

  /** StdEncoding.EncodeToString */
  function EncodeStd(b: seq<byte>): string {
    EncodeRaw(b) + (if |b| % 3 == 0 then "" else if |b| % 3 == 1 then "==" else "=")
  }
}
