/** The request validators of tincver/validation.go and the strings built from what they accept. */
module Validation {
  import opened Common
  import opened Text
  import Base64

  datatype ValidationError = ValidationError(field: string, code: string)

  /** None is the nil error. */
  type Verdict = Option<ValidationError>

  function Reject(field: string, code: string): Verdict {
    Some(ValidationError(field, code))
  }

  const MAX_USERNAME_LENGTH := 32
  const MIN_NONCE_LENGTH := 16
  const MAX_NONCE_LENGTH := 64
  const MAX_TINC_NAME_LENGTH := 64
  const MAX_TIMESTAMP_LENGTH := 19
  const TINC_PUBLIC_KEY_LENGTH := 32
  const ALLOWED_TIME_SKEW: int := 30 * SECOND

  // ---------------------------------------------------------------- character classes

  predicate Alphanumeric(c: char) {
    'a' <= c <= 'z' || 'A' <= c <= 'Z' || '0' <= c <= '9'
  }

  predicate UsernameChar(c: char) {
    Alphanumeric(c) || c == '_' || c == '.' || c == '-'
  }

  predicate NonceChar(c: char) {
    Alphanumeric(c) || c == '-' || c == '_'
  }

  predicate All(s: string, p: char -> bool) {
    forall c | c in s :: p(c)
  }

  /** ^[A-Za-z0-9+/]{43}=?$ */
  predicate PubKeyPattern(s: string) {
    || (|s| == 43 && Base64.AllAlphabet(s))
    || (|s| == 44 && Base64.AllAlphabet(s[..43]) && s[43] == '=')
  }

  // ---------------------------------------------------------------- validators

  function ValidateUsername(username: string): Verdict {
    if TrimSpace(username) == "" then Reject("username", "missing")
    else if |username| > MAX_USERNAME_LENGTH then Reject("username", "too_long")
    else if !All(username, UsernameChar) then Reject("username", "invalid_format")
    else None
  }

  function ValidateNonce(nonce: string): Verdict {
    var s := TrimSpace(nonce);
    if s == "" then Reject("nonce", "missing")
    else if |s| < MIN_NONCE_LENGTH then Reject("nonce", "too_short")
    else if |s| > MAX_NONCE_LENGTH then Reject("nonce", "too_long")
    else if !All(s, NonceChar) then Reject("nonce", "invalid_chars")
    else None
  }

  /** Filled up with padding characters to a multiple of four. */
  function Padded(s: string): string {
    if |s| % 4 != 0 then s + seq(4 - |s| % 4, _ => '=') else s
  }

  function ValidatePubKey(pubkey: string): Verdict {
    var s := TrimSpace(pubkey);
    if s == "" then Reject("pubkey", "missing")
    else if !PubKeyPattern(s) then Reject("pubkey", "invalid_format")
    else
      var decoded := Base64.DecodeStd(Padded(s));
      if decoded.None? then Reject("pubkey", "invalid_base64")
      else if |decoded.value| != TINC_PUBLIC_KEY_LENGTH then Reject("pubkey", "invalid_length")
      else None
  }

  /** ^[A-Za-z][A-Za-z0-9_]*$ on the trimmed name */
  function ValidateTincName(name: string): Verdict {
    var s := TrimSpace(name);
    if s == "" then Reject("tinc_name", "missing")
    else if |s| > MAX_TINC_NAME_LENGTH then Reject("tinc_name", "too_long")
    else if !('a' <= s[0] <= 'z' || 'A' <= s[0] <= 'Z') || !All(s, c => Alphanumeric(c) || c == '_') then
      Reject("tinc_name", "invalid_format")
    else None
  }

  /** The seconds a timestamp denotes, or the error; now is in nanoseconds. */
  function ValidateTimestamp(tsStr: string, now: int): (nat, Verdict) {
    var s := TrimSpace(tsStr);
    if s == "" then (0, Reject("timestamp", "missing"))
    else if |s| > MAX_TIMESTAMP_LENGTH then (0, Reject("timestamp", "invalid_format"))
    else if !AllDigits(s) then (0, Reject("timestamp", "invalid_format"))
    else
      var parsed := ParseUint(s, MAX_INT64);
      if parsed.None? then (0, Reject("timestamp", "invalid_format")) else
      var delta := now - parsed.value * SECOND;
      if delta > ALLOWED_TIME_SKEW || delta < -ALLOWED_TIME_SKEW then (0, Reject("timestamp", "skew"))
      else (parsed.value, None)
  }

  /** sanitizeValue; which runes count as unsafe is a table of the unicode package. */
  function SanitizeValue(field: string, value: string, unsafe: char -> bool): (string, Verdict) {
    var trimmed := TrimSpace(value);
    if trimmed == "" then ("", Reject(field, "missing"))
    else if exists c | c in trimmed :: unsafe(c) then ("", Reject(field, "invalid_chars"))
    else (trimmed, None)
  }

  /** The signed fields of a form and of the request parsed from it. */
  datatype AuthRequest = AuthRequest(username: string, timestamp: string, nonce: string, pubkey: string)

  /** ParseAuthRequest on the four signed fields: sanitize, then validate. */
  function ParseAuthRequest(form: AuthRequest, now: int, unsafe: char -> bool): (AuthRequest, Verdict) {
    var (username, e1) := SanitizeValue("username", form.username, unsafe);
    if e1.Some? then (form, e1) else
    var (pubkey, e2) := SanitizeValue("pubkey", form.pubkey, unsafe);
    if e2.Some? then (form, e2) else
    var (nonce, e3) := SanitizeValue("nonce", form.nonce, unsafe);
    if e3.Some? then (form, e3) else
    var (timestamp, e4) := SanitizeValue("timestamp", form.timestamp, unsafe);
    if e4.Some? then (form, e4) else
    var r := AuthRequest(username, timestamp, nonce, pubkey);
    (r, ValidateAuthRequest(r, now))
  }

  function ValidateAuthRequest(r: AuthRequest, now: int): Verdict {
    var e1 := ValidateUsername(r.username);
    if e1.Some? then e1 else
    var e2 := ValidatePubKey(r.pubkey);
    if e2.Some? then e2 else
    var e3 := ValidateNonce(r.nonce);
    if e3.Some? then e3 else
    ValidateTimestamp(r.timestamp, now).1
  }

  // ---------------------------------------------------------------- what the validators mean

  lemma NoSpaces(s: string, p: char -> bool)
    requires All(s, p) && forall c | p(c) :: !IsSpace(c)
    ensures Trimmed(s)
  {
    if s != "" { assert s[0] in s && s[|s| - 1] in s; }
  }

  /** A user name is accepted iff it is 1 to 32 characters of the class. */
  lemma UsernameAccepted(u: string)
    ensures ValidateUsername(u).None? <==> 1 <= |u| <= MAX_USERNAME_LENGTH && All(u, UsernameChar)
  {
    TrimSpaceTrims(u);
    if u != "" && All(u, UsernameChar) {
      NoSpaces(u, UsernameChar);
      TrimSpaceFixes(u);
    }
  }

  /** After the pattern, the base64 branch cannot fail: 43 letters always decode to 32 bytes. */
  lemma PubKeyAccepted(k: string)
    ensures ValidatePubKey(k).None? <==> PubKeyPattern(TrimSpace(k))
  {
    var s := TrimSpace(k);
    if PubKeyPattern(s) {
      Padding(s);
      PaddedDecodes(s[..43]);
      hide Base64.DecodeStd, TrimSpace, Base64.AllAlphabet, PubKeyPattern, Padded;
    }
  }

  lemma Padding(s: string)
    requires PubKeyPattern(s)
    ensures Padded(s) == s[..43] + "=" && Base64.AllAlphabet(s[..43])
  {
    hide Base64.AllAlphabet;
    if |s| == 43 {
      assert s[..43] == s && seq(4 - |s| % 4, _ => '=') == "=";
    }
  }

  /** 43 letters and one padding character decode to 32 bytes. */
  lemma PaddedDecodes(letters: string)
    requires |letters| == 43 && Base64.AllAlphabet(letters)
    ensures var d := Base64.DecodeStd(letters + "="); d.Some? && |d.value| == TINC_PUBLIC_KEY_LENGTH
  {
    hide Base64.DecodeQuanta;
    var padded := letters + "=";
    SkipTail(letters);
    assert padded[42] == letters[42] && letters[42] in letters;
    assert padded[..43] == letters && padded[42..] == [letters[42], '='];
    assert Base64.Unpadded(padded) == letters;
  }

  lemma {:induction false} SkipTail(s: string)
    requires Base64.AllAlphabet(s)
    ensures Base64.SkipBreaks(s + "=") == s + "="
  {
    if s == "" {
      assert s + "=" == "=" && "="[1..] == "";
    } else {
      assert s[0] in s && (s + "=")[1..] == s[1..] + "=";
      SkipTail(s[1..]);
    }
  }

  /** A timestamp is accepted iff it is 1 to 19 digits of a 64-bit number within the skew. */
  lemma TimestampAccepted(ts: string, now: int)
    ensures
      var s, r := TrimSpace(ts), ValidateTimestamp(ts, now);
      r.1.None? <==> && 1 <= |s| <= MAX_TIMESTAMP_LENGTH && AllDigits(s) && Value(s) <= MAX_INT64
                     && Value(s) * SECOND - ALLOWED_TIME_SKEW <= now <= Value(s) * SECOND + ALLOWED_TIME_SKEW
    ensures ValidateTimestamp(ts, now).1.None? ==>
              AllDigits(TrimSpace(ts)) && ValidateTimestamp(ts, now).0 == Value(TrimSpace(ts))
  {
  }

  /** A nonce is accepted iff its trimmed text is 16 to 64 characters of the class. */
  lemma NonceAccepted(nonce: string)
    ensures
      var s := TrimSpace(nonce);
      ValidateNonce(nonce).None? <==> MIN_NONCE_LENGTH <= |s| <= MAX_NONCE_LENGTH && All(s, NonceChar)
  {
  }

  /** A node name is accepted iff its trimmed text is a letter and at most 63 letters, digits and
      underscores. */
  lemma TincNameAccepted(name: string)
    ensures
      var s := TrimSpace(name);
      ValidateTincName(name).None? <==>
        && 1 <= |s| <= MAX_TINC_NAME_LENGTH && ('a' <= s[0] <= 'z' || 'A' <= s[0] <= 'Z')
        && forall c | c in s :: Alphanumeric(c) || c == '_'
  {
  }

  /** The field is not blank and none of its characters between the ends is unsafe. */
  predicate Clean(value: string, unsafe: char -> bool) {
    TrimSpace(value) != "" && forall c | c in TrimSpace(value) :: !unsafe(c)
  }

  /** A form is accepted iff every field is clean and its trimmed text is valid, and the request holds
      the trimmed texts. */
  lemma ParsedIff(form: AuthRequest, now: int, unsafe: char -> bool)
    ensures
      var (r, verdict) := ParseAuthRequest(form, now, unsafe);
      var trimmed :=
        AuthRequest(TrimSpace(form.username), TrimSpace(form.timestamp), TrimSpace(form.nonce), TrimSpace(form.pubkey));
      && (verdict.None? <==>
            && Clean(form.username, unsafe) && Clean(form.timestamp, unsafe)
            && Clean(form.nonce, unsafe) && Clean(form.pubkey, unsafe)
            && ValidateUsername(trimmed.username).None? && ValidatePubKey(trimmed.pubkey).None?
            && ValidateNonce(trimmed.nonce).None? && ValidateTimestamp(trimmed.timestamp, now).1.None?)
      && (verdict.None? ==> r == trimmed)
  {
    hide TrimSpace, ValidateUsername, ValidatePubKey, ValidateNonce, ValidateTimestamp;
  }

  /** What a parsed request is made of. */
  ghost predicate WellFormed(r: AuthRequest) {
    && All(r.username, UsernameChar)
    && AllDigits(r.timestamp)
    && All(r.nonce, NonceChar)
    && PubKeyPattern(r.pubkey)
  }

  lemma ParsedIsWellFormed(form: AuthRequest, now: int, unsafe: char -> bool)
    requires ParseAuthRequest(form, now, unsafe).1.None?
    ensures WellFormed(ParseAuthRequest(form, now, unsafe).0)
    ensures ValidateTimestamp(ParseAuthRequest(form, now, unsafe).0.timestamp, now).1.None?
  {
    var r := ParseAuthRequest(form, now, unsafe).0;
    TrimSpaceTrims(form.username);
    TrimSpaceTrims(form.timestamp);
    TrimSpaceTrims(form.nonce);
    TrimSpaceTrims(form.pubkey);
    TrimSpaceFixes(r.username);
    TrimSpaceFixes(r.timestamp);
    TrimSpaceFixes(r.nonce);
    TrimSpaceFixes(r.pubkey);
    UsernameAccepted(r.username);
    TimestampAccepted(r.timestamp, now);
    PubKeyAccepted(r.pubkey);
  }

  // ---------------------------------------------------------------- unambiguous strings

  /** buildSignaturePayload */
  function Payload(r: AuthRequest): string {
    "username=" + r.username + "&timestamp=" + r.timestamp + "&nonce=" + r.nonce + "&pubkey=" + r.pubkey
  }

  /** build_signature_payload of the client, from the fields it sends. */
  function ClientPayload(form: AuthRequest): string {
    "username=" + form.username
    + "&timestamp=" + form.timestamp
    + "&nonce=" + form.nonce
    + "&pubkey=" + form.pubkey
  }

  /** The server checks the signature of exactly the string the client signed, if the client sent its
      fields trimmed. */
  lemma SignedIsChecked(form: AuthRequest, now: int, unsafe: char -> bool)
    requires ParseAuthRequest(form, now, unsafe).1.None?
    requires Trimmed(form.username) && Trimmed(form.timestamp) && Trimmed(form.nonce) && Trimmed(form.pubkey)
    ensures Payload(ParseAuthRequest(form, now, unsafe).0) == ClientPayload(form)
  {
    ParsedIff(form, now, unsafe);
    TrimSpaceFixes(form.username);
    TrimSpaceFixes(form.timestamp);
    TrimSpaceFixes(form.nonce);
    TrimSpaceFixes(form.pubkey);
    hide ParseAuthRequest, TrimSpace, Trimmed;
  }

  /** The cache key of checkAndStoreNonce. */
  function NonceKey(r: AuthRequest): string {
    r.username + ":" + r.nonce
  }

  lemma NoAmpersand(r: AuthRequest)
    requires WellFormed(r)
    ensures '&' !in r.username && '&' !in r.timestamp && '&' !in r.nonce && ':' !in r.username
  {
  }

  /** Equal payloads are signatures of the same request. */
  lemma PayloadInjective(a: AuthRequest, b: AuthRequest)
    requires WellFormed(a) && WellFormed(b) && Payload(a) == Payload(b)
    ensures a == b
  {
    NoAmpersand(a);
    NoAmpersand(b);
    var ta, tb := "timestamp=" + a.timestamp, "timestamp=" + b.timestamp;
    var na, nb := "nonce=" + a.nonce, "nonce=" + b.nonce;
    var ka, kb := "pubkey=" + a.pubkey, "pubkey=" + b.pubkey;
    PayloadShape(a);
    PayloadShape(b);
    HeadsAgree("username=" + a.username, "username=" + b.username, '&',
               ta + "&" + (na + "&" + ka), tb + "&" + (nb + "&" + kb));
    HeadsAgree(ta, tb, '&', na + "&" + ka, nb + "&" + kb);
    HeadsAgree(na, nb, '&', ka, kb);
    SameTail("username=", a.username, b.username);
    SameTail("timestamp=", a.timestamp, b.timestamp);
    SameTail("nonce=", a.nonce, b.nonce);
    SameTail("pubkey=", a.pubkey, b.pubkey);
  }

  lemma PayloadShape(r: AuthRequest)
    ensures Payload(r) == "username=" + r.username + ['&']
      + (("timestamp=" + r.timestamp) + "&" + (("nonce=" + r.nonce) + "&" + ("pubkey=" + r.pubkey)))
  {
    assert "&timestamp=" == "&" + "timestamp=" && "&nonce=" == "&" + "nonce=" && "&pubkey=" == "&" + "pubkey=";
  }

  lemma SameTail(p: string, a: string, b: string)
    requires p + a == p + b
    ensures a == b
  {
    assert a == (p + a)[|p|..] && b == (p + b)[|p|..];
  }

  /** Equal cache keys belong to the same user and nonce. */
  lemma NonceKeyInjective(a: AuthRequest, b: AuthRequest)
    requires WellFormed(a) && WellFormed(b) && NonceKey(a) == NonceKey(b)
    ensures a.username == b.username && a.nonce == b.nonce
  {
    NoAmpersand(a);
    NoAmpersand(b);
    HeadsAgree(a.username, b.username, ':', a.nonce, b.nonce);
  }
}
