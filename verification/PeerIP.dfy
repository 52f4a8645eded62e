/** Peer addresses: ValidatePeerIP and NormalizePeerIP of tincver/validation.go, with the IPv4
    side of net.ParseIP, net.ParseCIDR and IP.String.  Reading and printing IPv6 text is a
    parameter. */
module PeerIP {
  import opened Common
  import opened Text
  import opened Validation

  /** An address as the library holds it.  `text` is its IPv6 print; a mapped address is an IPv4
      address written the IPv6 way, and prints as one. */
  datatype Addr = V4(n: nat) | V6(text: string, mapped: bool)

  type V6Parser = string -> Option<Addr>

  const TWO_32: nat := 0x1_0000_0000

  // ---------------------------------------------------------------- IPv4 text

  /** A decimal field: no sign, no leading zero, at most 255. */
  function ParseField(s: string): Option<nat> {
    if s == "" || !AllDigits(s) || (|s| > 1 && s[0] == '0') || Value(s) > 255 then None else Some(Value(s))
  }

  function ParseIPv4(s: string): Option<Addr> {
    var parts := Split(s, '.');
    if |parts| != 4 then None else
    var (a, b, c, d) := (ParseField(parts[0]), ParseField(parts[1]), ParseField(parts[2]), ParseField(parts[3]));
    if a.None? || b.None? || c.None? || d.None? then None
    else Some(V4(a.value * 0x100_0000 + b.value * 0x1_0000 + c.value * 0x100 + d.value))
  }

  /** Dotted decimal */
  function PrintIPv4(n: nat): string {
    Join([Itoa(n / 0x100_0000), Itoa(n / 0x1_0000 % 0x100), Itoa(n / 0x100 % 0x100), Itoa(n % 0x100)], '.')
  }

  // ---------------------------------------------------------------- net.ParseIP and net.ParseCIDR

  /** The first of '.', ':' and '%' decides the family. */
  function ParseIP(s: string, v6: V6Parser): Option<Addr> {
    var dot, colon, zone := IndexOf(s, '.'), IndexOf(s, ':'), IndexOf(s, '%');
    if dot < colon && dot < zone then ParseIPv4(s) else if colon < zone then v6(s) else None
  }

  /** Address, prefix length and address width. */
  function ParseCIDR(s: string, v6: V6Parser): Option<(Addr, nat, nat)> {
    var (addr, mask, found) := Cut(s, '/');
    if !found then None else
    var ip := ParseIP(addr, v6);
    if ip.None? then None else
    var bits := if ip.value.V4? then 32 else 128;
    var ones := ParseUint(mask, bits);
    if ones.None? then None else Some((ip.value, ones.value, bits))
  }

  function PrintIP(a: Addr): string {
    match a
    case V4(n) => PrintIPv4(n)
    case V6(text, _) => text
  }

  // ---------------------------------------------------------------- the validators

  function ValidatePeerIP(value: string, v6: V6Parser): Verdict {
    var s := TrimSpace(value);
    if s == "" then Reject("allowed_ip", "missing")
    else if ParseIP(s, v6).Some? then
      if '/' in s then Reject("allowed_ip", "invalid_format") else None
    else
      var net := ParseCIDR(s, v6);
      if net.None? then Reject("allowed_ip", "invalid_format")
      else if net.value.2 == 32 then
        if net.value.1 == 32 then None else Reject("allowed_ip", "ipv4_too_wide")
      else if net.value.1 == 128 then None else Reject("allowed_ip", "ipv6_too_wide")
  }

  /** The canonical single-address prefix, or None for the error. */
  function NormalizePeerIP(value: string, v6: V6Parser): Option<string> {
    if ValidatePeerIP(value, v6).Some? then None else
    var s := TrimSpace(value);
    var ip := ParseIP(s, v6);
    if ip.Some? then
      Some(PrintIP(ip.value) + if ip.value.V4? || ip.value.mapped then "/32" else "/128")
    else
      var net := ParseCIDR(s, v6);
      Some(PrintIP(net.value.0) + if net.value.2 == 32 then "/32" else "/128")
  }

  // ---------------------------------------------------------------- round trips

  lemma FieldRoundTrip(n: nat)
    requires n <= 255
    ensures ParseField(Itoa(n)) == Some(n) && '.' !in Itoa(n)
  {
    ItoaValue(n);
    if n < 10 { assert |Itoa(n)| == 1; }
  }

  /** Four bytes cut from a 32-bit number and put together again. */
  lemma Bytes(n: nat)
    requires n < TWO_32
    ensures n / 0x100_0000 <= 255
    ensures n / 0x100_0000 * 0x100_0000 + n / 0x1_0000 % 0x100 * 0x1_0000 + n / 0x100 % 0x100 * 0x100 + n % 0x100 == n
  {
    var a := n / 0x100;
    var b := a / 0x100;
    var c := b / 0x100;
    assert n / 0x1_0000 == b;
    assert n / 0x100_0000 == c;
    assert n == a * 0x100 + n % 0x100 && a == b * 0x100 + a % 0x100 && b == c * 0x100 + b % 0x100;
  }

  /** Reading what was printed gives the address back. */
  lemma IPv4RoundTrip(n: nat)
    requires n < TWO_32
    ensures ParseIPv4(PrintIPv4(n)) == Some(V4(n))
  {
    var parts := [Itoa(n / 0x100_0000), Itoa(n / 0x1_0000 % 0x100), Itoa(n / 0x100 % 0x100), Itoa(n % 0x100)];
    Bytes(n);
    FieldRoundTrip(n / 0x100_0000);
    FieldRoundTrip(n / 0x1_0000 % 0x100);
    FieldRoundTrip(n / 0x100 % 0x100);
    FieldRoundTrip(n % 0x100);
    SplitJoin(parts, '.');
  }

  /** Only its print is read as an IPv4 address. */
  lemma ParsedIsPrinted(s: string)
    requires ParseIPv4(s).Some?
    ensures ParseIPv4(s).value.V4? && ParseIPv4(s).value.n < TWO_32 && PrintIPv4(ParseIPv4(s).value.n) == s
  {
    var parts := Split(s, '.');
    FourFields(s);
    var a, b, c, d := Value(parts[0]), Value(parts[1]), Value(parts[2]), Value(parts[3]);
    hide *;
    JoinSplit(s, '.');
    assert parts == [parts[0], parts[1], parts[2], parts[3]];
    JoinFour(parts[0], parts[1], parts[2], parts[3]);
    PrintedBytes(a, b, c, d);
  }

  /** A decimal field is the print of its number. */
  lemma FieldIsPrinted(s: string)
    requires ParseField(s).Some?
    ensures AllDigits(s) && Value(s) < 256 && Itoa(Value(s)) == s
  {
    CanonicalDigits(s);
  }

  lemma FourFields(s: string)
    requires ParseIPv4(s).Some?
    ensures
      var f := Split(s, '.');
      && |f| == 4 && (forall i | 0 <= i < 4 :: AllDigits(f[i]) && Value(f[i]) < 256 && Itoa(Value(f[i])) == f[i])
      && ParseIPv4(s) == Some(V4(Value(f[0]) * 0x100_0000 + Value(f[1]) * 0x1_0000 + Value(f[2]) * 0x100 + Value(f[3])))
  {
    var f := Split(s, '.');
    hide AllDigits, Value, Itoa;
    forall i | 0 <= i < 4 ensures AllDigits(f[i]) && Value(f[i]) < 256 && Itoa(Value(f[i])) == f[i] {
      FieldIsPrinted(f[i]);
    }
  }

  /** What an allowed IPv4 address is, and what becomes of it: a dotted address by itself or with a
      prefix length of 32, and then that address as a /32 prefix. */
  lemma NormalizedIff(value: string, t: string, v6: V6Parser)
    requires var s := TrimSpace(value); ':' !in s && '%' !in s
    ensures NormalizePeerIP(value, v6) == Some(t) <==>
            exists n: nat :: n < TWO_32 && t == PrintIPv4(n) + "/32" && Denotes(TrimSpace(value), n)
  {
    var s := TrimSpace(value);
    hide TrimSpace;
    if NormalizePeerIP(value, v6) == Some(t) {
      NormalizedDenotes(value, t, v6);
    }
    if n: nat :| n < TWO_32 && t == PrintIPv4(n) + "/32" && Denotes(s, n) {
      DenotedNormalizes(value, n, v6);
    }
  }

  /** A text for the single address n. */
  ghost predicate Denotes(s: string, n: nat) {
    s == PrintIPv4(n) || exists mask :: s == PrintIPv4(n) + ['/'] + mask && ParseUint(mask, 32) == Some(32)
  }

  lemma DottedFamily(s: string, v6: V6Parser)
    requires ':' !in s && '%' !in s
    ensures ParseIP(s, v6) == ParseIPv4(s)
  {
    IndexOfAbsent(s, ':');
    IndexOfAbsent(s, '%');
    if '.' !in s {
      IndexOfAbsent(s, '.');
      SplitAbsent(s, '.');
    }
  }

  lemma NormalizedDenotes(value: string, t: string, v6: V6Parser)
    requires var s := TrimSpace(value); ':' !in s && '%' !in s
    requires NormalizePeerIP(value, v6) == Some(t)
    ensures exists n: nat :: n < TWO_32 && t == PrintIPv4(n) + "/32" && Denotes(TrimSpace(value), n)
  {
    var s := TrimSpace(value);
    hide TrimSpace;
    if ParseIP(s, v6).Some? {
      DottedFamily(s, v6);
      hide ParseIP, ParseIPv4, PrintIPv4;
      ParsedIsPrinted(s);
      assert Denotes(s, ParseIPv4(s).value.n);
    } else {
      PrefixDenotes(s, v6);
      hide ParseIP, ParseCIDR, Denotes, PrintIPv4;
    }
  }

  lemma PrefixDenotes(s: string, v6: V6Parser)
    requires ':' !in s && '%' !in s && ParseCIDR(s, v6).Some? && ParseCIDR(s, v6).value.1 >= 32
    ensures var (ip, ones, bits) := ParseCIDR(s, v6).value;
      ip.V4? && ip.n < TWO_32 && ones == 32 && bits == 32 && Denotes(s, ip.n)
  {
    var (addr, mask, _) := Cut(s, '/');
    CutJoins(s, '/');
    DottedFamily(addr, v6);
    hide ParseIP, ParseIPv4, PrintIPv4, Cut;
    ParsedIsPrinted(addr);
    assert s == PrintIPv4(ParseIPv4(addr).value.n) + ['/'] + mask;
  }

  lemma DenotedNormalizes(value: string, n: nat, v6: V6Parser)
    requires n < TWO_32 && Denotes(TrimSpace(value), n)
    ensures NormalizePeerIP(value, v6) == Some(PrintIPv4(n) + "/32")
  {
    var s, p := TrimSpace(value), PrintIPv4(n);
    IPv4RoundTrip(n);
    IPv4Chars(n);
    IPv4Family(p, v6);
    hide ParseIPv4, TrimSpace, PrintIPv4;
    if s != p {
      var mask :| s == p + ['/'] + mask && ParseUint(mask, 32) == Some(32);
      SlashIsNoIPv4(p, mask, v6);
      SplitSeparator(p, '/', mask);
      hide ParseIP, Cut;
      assert ParseCIDR(s, v6) == Some((V4(n), 32, 32));
    }
  }

  lemma {:induction false} JoinChars(parts: seq<string>, c: char)
    ensures forall x | x in Join(parts, c) :: x == c || exists p :: p in parts && x in p
  {
    if |parts| > 1 {
      JoinChars(parts[1..], c);
      forall x | x in Join(parts, c) && x != c ensures exists p :: p in parts && x in p {
        if x in parts[0] { assert parts[0] in parts; } else { assert x in Join(parts[1..], c); }
      }
    } else if |parts| == 1 {
      assert parts[0] in parts;
    }
  }

  lemma IPv4Chars(n: nat)
    ensures forall x | x in PrintIPv4(n) :: IsDigit(x) || x == '.'
    ensures '.' in PrintIPv4(n) && PrintIPv4(n)[0] != '.'
  {
    var parts := [Itoa(n / 0x100_0000), Itoa(n / 0x1_0000 % 0x100), Itoa(n / 0x100 % 0x100), Itoa(n % 0x100)];
    JoinChars(parts, '.');
    ItoaValue(n / 0x100_0000);
    ItoaValue(n / 0x1_0000 % 0x100);
    ItoaValue(n / 0x100 % 0x100);
    ItoaValue(n % 0x100);
    assert Join(parts, '.') == parts[0] + ['.'] + Join(parts[1..], '.');
    assert Join(parts, '.')[|parts[0]|] == '.';
    assert parts[0][0] in parts[0];
  }

  /** Different addresses print differently. */
  lemma PrintInjective(m: nat, n: nat)
    requires m < TWO_32 && n < TWO_32 && PrintIPv4(m) == PrintIPv4(n)
    ensures m == n
  {
    IPv4RoundTrip(m);
    IPv4RoundTrip(n);
  }

  /** The print is the four bytes in decimal, the most significant first. */
  lemma PrintedBytes(a: nat, b: nat, c: nat, d: nat)
    requires a < 256 && b < 256 && c < 256 && d < 256
    ensures PrintIPv4(a * 0x100_0000 + b * 0x1_0000 + c * 0x100 + d)
         == Itoa(a) + "." + Itoa(b) + "." + Itoa(c) + "." + Itoa(d)
  {
    ByteValues(a, b, c, d);
    hide Itoa;
    JoinFour(Itoa(a), Itoa(b), Itoa(c), Itoa(d));
  }

  lemma ByteValues(a: nat, b: nat, c: nat, d: nat)
    requires a < 256 && b < 256 && c < 256 && d < 256
    ensures
      var n := a * 0x100_0000 + b * 0x1_0000 + c * 0x100 + d;
      n / 0x100_0000 == a && n / 0x1_0000 % 0x100 == b && n / 0x100 % 0x100 == c && n % 0x100 == d
  {
    var n := a * 0x100_0000 + b * 0x1_0000 + c * 0x100 + d;
    assert n / 0x100 == a * 0x1_0000 + b * 0x100 + c;
    assert n / 0x1_0000 == a * 0x100 + b;
  }

  lemma JoinFour(a: string, b: string, c: string, d: string)
    ensures Join([a, b, c, d], '.') == a + "." + b + "." + c + "." + d
  {
    assert Join([d], '.') == d;
    assert Join([c, d], '.') == c + "." + d by { assert [c, d][1..] == [d]; }
    assert Join([b, c, d], '.') == b + "." + (c + "." + d) by { assert [b, c, d][1..] == [c, d]; }
    assert [a, b, c, d][1..] == [b, c, d];
  }

  /** A bare address gets the prefix length of a single host. */
  lemma BareAddress(n: nat, v6: V6Parser)
    requires n < TWO_32
    ensures NormalizePeerIP(PrintIPv4(n), v6) == Some(PrintIPv4(n) + "/32")
  {
    var p := PrintIPv4(n);
    IPv4RoundTrip(n);
    IPv4Chars(n);
    IPv4Family(p, v6);
    DottedIsTrimmed(p);
    hide PrintIPv4, ParseIPv4, ParseIP, TrimSpace;
  }

  lemma DottedIsTrimmed(p: string)
    requires p != "" && forall x | x in p :: IsDigit(x) || x == '.'
    ensures TrimSpace(p) == p
  {
    assert p[0] in p && p[|p| - 1] in p;
    TrimSpaceFixes(p);
  }

  /** A prefix wider than a single host is refused. */
  lemma WiderIsRefused(n: nat, bits: nat, v6: V6Parser)
    requires n < TWO_32 && bits < 32
    ensures ValidatePeerIP(PrintIPv4(n) + "/" + Itoa(bits), v6) == Reject("allowed_ip", "ipv4_too_wide")
    ensures NormalizePeerIP(PrintIPv4(n) + "/" + Itoa(bits), v6) == None
  {
    IPv4RoundTrip(n);
    IPv4Chars(n);
    ItoaValue(bits);
    WiderText(PrintIPv4(n), Itoa(bits), n, bits, v6);
  }

  lemma WiderText(p: string, mask: string, n: nat, bits: nat, v6: V6Parser)
    requires ParseIPv4(p) == Some(V4(n)) && bits < 32
    requires '.' in p && p[0] != '.' && forall x | x in p :: IsDigit(x) || x == '.'
    requires mask != "" && AllDigits(mask) && Value(mask) == bits
    ensures ValidatePeerIP(p + "/" + mask, v6) == Reject("allowed_ip", "ipv4_too_wide")
  {
    var s := p + ['/'] + mask;
    assert s == p + "/" + mask;
    assert s[0] in p && s[|s| - 1] in mask;
    TrimSpaceFixes(s);
    SlashIsNoIPv4(p, mask, v6);
    IPv4Family(p, v6);
    SplitSeparator(p, '/', mask);
    hide ParseIPv4, ParseIP, TrimSpace, Cut, IndexOf;
    assert ParseCIDR(s, v6) == Some((V4(n), bits, 32));
  }

  /** An address printed as a /32 prefix is already in normal form. */
  lemma NormalForm(n: nat, v6: V6Parser)
    requires n < TWO_32
    ensures
      var s := PrintIPv4(n) + "/32";
      Trimmed(s) && '\n' !in s && NormalizePeerIP(s, v6) == Some(s)
  {
    var p := PrintIPv4(n);
    var s := p + "/32";
    IPv4RoundTrip(n);
    IPv4Chars(n);
    assert s == p + ['/'] + "32";
    hide PrintIPv4, ParseIPv4;
    assert '\n' !in s;
    HostPrefix(p, n, v6);
  }

  /** A dotted address followed by /32 is its own normal form. */
  lemma HostPrefix(p: string, n: nat, v6: V6Parser)
    requires ParseIPv4(p) == Some(V4(n)) && PrintIPv4(n) == p
    requires '.' in p && p[0] != '.' && forall x | x in p :: IsDigit(x) || x == '.'
    ensures
      var s := p + ['/'] + "32";
      Trimmed(s) && NormalizePeerIP(s, v6) == Some(s)
  {
    var s := p + ['/'] + "32";
    assert s[0] in p && Trimmed(s);
    TrimSpaceFixes(s);
    SlashIsNoIPv4(p, "32", v6);
    IPv4Family(p, v6);
    SplitSeparator(p, '/', "32");
    assert Value("32") == 32 by { assert "32"[..1] == "3" && "3"[..0] == ""; }
    hide PrintIPv4, ParseIPv4, ParseIP, TrimSpace, Cut, IndexOf;
    assert ParseCIDR(s, v6) == Some((V4(n), 32, 32));
    assert s == p + "/32";
  }

  lemma IPv4Family(s: string, v6: V6Parser)
    requires '.' in s && ':' !in s && '%' !in s
    ensures ParseIP(s, v6) == ParseIPv4(s)
  {
    IndexOfAbsent(s, ':');
    IndexOfAbsent(s, '%');
  }

  /** A dotted address with a prefix length is no address. */
  lemma SlashIsNoIPv4(p: string, mask: string, v6: V6Parser)
    requires '.' in p && (forall x | x in p + mask :: IsDigit(x) || x == '.')
    ensures ParseIP(p + ['/'] + mask, v6) == None
  {
    var s := p + ['/'] + mask;
    assert s[|p|] == '/';
    forall x | x in s ensures IsDigit(x) || x == '.' || x == '/' {
      if x != '/' { assert x in p + mask; }
    }
    IPv4Family(s, v6);
    if ParseIPv4(s).Some? { IPv4TextChars(s); }
  }

  lemma IPv4TextChars(s: string)
    requires ParseIPv4(s).Some?
    ensures '/' !in s
  {
    var parts := Split(s, '.');
    JoinSplit(s, '.');
    JoinChars(parts, '.');
    assert parts == [parts[0], parts[1], parts[2], parts[3]];
    assert AllDigits(parts[0]) && AllDigits(parts[1]) && AllDigits(parts[2]) && AllDigits(parts[3]);
  }
}
