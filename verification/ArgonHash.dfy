/** Encoded argon2id hashes: the three parsers of tincver/encrypt.go, src/esa/encrypt.go and
    src/esausermanage/main.go against one declarative meaning, and the rendering of hashPassword. */
module ArgonHash {
  import opened Common
  import opened Text
  import Base64

  const MIN_MEMORY: nat := 32 * 1024
  const MAX_MEMORY: nat := 256 * 1024
  const MIN_ITERATIONS: nat := 1
  const MAX_ITERATIONS: nat := 10
  const MIN_PARALLEL: nat := 1
  const MAX_PARALLEL: nat := 8
  const MIN_LENGTH: nat := 16
  const MAX_LENGTH: nat := 64

  datatype Params = Params(memory: nat, iterations: nat, parallelism: nat)
  {
    predicate InRange() {
      && MIN_MEMORY <= memory <= MAX_MEMORY
      && MIN_ITERATIONS <= iterations <= MAX_ITERATIONS
      && MIN_PARALLEL <= parallelism <= MAX_PARALLEL
    }

    /** What three items have to say to declare these parameters. */
    function Readings(): set<Option<Reading>> {
      {Some(Reading("m", memory)), Some(Reading("t", iterations)), Some(Reading("p", parallelism))}
    }
  }

  datatype Reading = Reading(key: string, value: nat)

  datatype Argon2Hash = Argon2Hash(params: Params, salt: seq<Base64.byte>, hash: seq<Base64.byte>)

  // ---------------------------------------------------------------- what a hash string denotes

  predicate IsKey(key: string) {
    key == "m" || key == "t" || key == "p"
  }

  /** An item key=digits. */
  function Read(item: string): Option<Reading> {
    var (key, v, found) := Cut(item, '=');
    var value := ParseUint(v, MAX_UINT64);
    if found && value.Some? then Some(Reading(key, value.value)) else None
  }

  function ReadAll(items: seq<string>): set<Option<Reading>> {
    set item | item in items :: Read(item)
  }

  /** Three items, one for each key, in any order and within the limits. */
  ghost predicate Declares(items: seq<string>, params: Params) {
    |items| == 3 && params.InRange() && ReadAll(items) == params.Readings()
  }

  ghost predicate Denotes(encoded: string, h: Argon2Hash) {
    var parts := Split(TrimSpace(encoded), '$');
    && |parts| == 6 && parts[0] == "" && parts[1] == "argon2id" && parts[2] == "v=19"
    && Declares(Split(parts[3], ','), h.params)
    && Base64.DecodeRaw(parts[4]) == Some(h.salt) && MIN_LENGTH <= |h.salt| <= MAX_LENGTH
    && Base64.DecodeRaw(parts[5]) == Some(h.hash) && MIN_LENGTH <= |h.hash| <= MAX_LENGTH
  }

  /** A hash string denotes at most one hash. */
  lemma DenotesOne(encoded: string, g: Argon2Hash, h: Argon2Hash)
    requires Denotes(encoded, g) && Denotes(encoded, h)
    ensures g == h
  {
    SameReadings(g.params, h.params);
  }

  lemma SameReadings(q: Params, r: Params)
    requires q.Readings() == r.Readings()
    ensures q == r
  {
    assert Some(Reading("m", q.memory)) in r.Readings();
    assert Some(Reading("t", q.iterations)) in r.Readings();
    assert Some(Reading("p", q.parallelism)) in r.Readings();
  }

  lemma ItemsInAnyOrder(items: seq<string>, others: seq<string>, params: Params)
    requires multiset(items) == multiset(others)
    ensures Declares(items, params) <==> Declares(others, params)
  {
    assert |items| == |multiset(items)| == |others|;
    assert forall x :: x in items <==> x in multiset(items);
    assert forall x :: x in others <==> x in multiset(others);
    assert ReadAll(items) == ReadAll(others);
  }

  /** Two strings that differ only in the order of their parameter items denote the same hashes. */
  lemma OrderIsFree(encoded: string, other: string, h: Argon2Hash)
    requires
      var (p, q) := (Split(TrimSpace(encoded), '$'), Split(TrimSpace(other), '$'));
      && |p| == |q| && (forall i | 0 <= i < |p| && i != 3 :: p[i] == q[i])
      && (|p| > 3 ==> multiset(Split(p[3], ',')) == multiset(Split(q[3], ',')))
    ensures Denotes(encoded, h) <==> Denotes(other, h)
  {
    var p, q := Split(TrimSpace(encoded), '$'), Split(TrimSpace(other), '$');
    if |p| > 3 { ItemsInAnyOrder(Split(p[3], ','), Split(q[3], ','), h.params); }
    hide Declares, Split, TrimSpace;
  }

  // ---------------------------------------------------------------- the loops

  function Entries(values: map<string, nat>): set<Option<Reading>> {
    set k | k in values :: Some(Reading(k, values[k]))
  }

  /** After some items: each has its own key in the map, and the map holds nothing else. */
  ghost predicate Tallied(items: seq<string>, values: map<string, nat>) {
    |values| == |items| && (forall k | k in values :: IsKey(k)) && ReadAll(items) == Entries(values)
  }

  lemma TallyItem(items: seq<string>, n: nat, values: map<string, nat>, key: string, value: nat)
    requires n < |items| && Tallied(items[..n], values)
    requires Read(items[n]) == Some(Reading(key, value)) && IsKey(key) && key !in values
    ensures Tallied(items[..n + 1], values[key := value])
  {
    var more := values[key := value];
    assert more.Keys == values.Keys + {key} && |more.Keys| == |more| && |values.Keys| == |values|;
    ReadOneMore(items, n);
    EntriesOneMore(values, key, value);
  }

  lemma ReadOneMore(items: seq<string>, n: nat)
    requires n < |items|
    ensures ReadAll(items[..n + 1]) == ReadAll(items[..n]) + {Read(items[n])}
  {
    assert items[..n + 1] == items[..n] + [items[n]];
  }

  lemma EntriesOneMore(values: map<string, nat>, key: string, value: nat)
    requires key !in values
    ensures Entries(values[key := value]) == Entries(values) + {Some(Reading(key, value))}
  {
    var more := values[key := value];
    forall r | r in Entries(values) ensures r in Entries(more) {
      assert r.value.key in more && more[r.value.key] == r.value.value;
    }
    assert more[key] == value && key in more;
  }

  /** An item that is no key with a number in the limits spoils every declaration. */
  lemma BadItem(items: seq<string>, n: nat)
    requires n < |items|
    requires Read(items[n]).Some? && Read(items[n]).value.value <= MAX_UINT32 ==> !IsKey(Read(items[n]).value.key)
    ensures forall q :: !Declares(items, q)
  {
    assert Read(items[n]) in ReadAll(items);
  }

  lemma DistinctThree<T>(x: T, y: T, z: T, a: T, b: T, c: T)
    requires {x, y, z} == {a, b, c} && a != b && b != c && a != c
    ensures x != y && y != z && x != z
  {
    assert a in {x, y, z} && b in {x, y, z} && c in {x, y, z};
  }

  lemma DuplicateKey(items: seq<string>, n: nat, values: map<string, nat>, key: string)
    requires n < |items| && Tallied(items[..n], values) && key in values
    requires Cut(items[n], '=').0 == key && IsKey(key)
    ensures forall q :: !Declares(items, q)
  {
    assert Some(Reading(key, values[key])) in Entries(values);
    var item :| item in items[..n] && Read(item) == Some(Reading(key, values[key]));
    var j :| 0 <= j < n && items[j] == item;
    forall q ensures !Declares(items, q) {
      if Declares(items, q) { TwoOfAKind(items, q, j, n); }
    }
  }

  /** Two items of one declaration never share a key. */
  lemma TwoOfAKind(items: seq<string>, q: Params, j: nat, n: nat)
    requires Declares(items, q) && j < n < |items|
    ensures Read(items[j]).Some? && Read(items[n]).Some? && Read(items[j]).value.key != Read(items[n]).value.key
  {
    hide Read;
    ReadThree(items);
    DistinctThree(Read(items[0]), Read(items[1]), Read(items[2]),
                  Some(Reading("m", q.memory)), Some(Reading("t", q.iterations)), Some(Reading("p", q.parallelism)));
    KeyDecides(q, Read(items[j]), Read(items[n]));
  }

  lemma ReadThree(items: seq<string>)
    requires |items| == 3
    ensures ReadAll(items) == {Read(items[0]), Read(items[1]), Read(items[2])}
  {
    hide Read;
    forall item | item in items ensures item == items[0] || item == items[1] || item == items[2] {
    }
  }

  lemma KeyDecides(q: Params, x: Option<Reading>, y: Option<Reading>)
    requires x in q.Readings() && y in q.Readings() && x != y
    ensures x.Some? && y.Some? && x.value.key != y.value.key
  {
  }

  /** The map that is left at the end decides. */
  lemma TallyEnd(items: seq<string>, values: map<string, nat>)
    requires Tallied(items, values)
    ensures |values| == 3 ==> "m" in values && "t" in values && "p" in values
    ensures "m" in values && "t" in values && "p" in values ==> |values| == 3
    ensures forall q: Params :: Declares(items, q) <==>
                        |values| == 3 && q == Params(values["m"], values["t"], values["p"]) && q.InRange()
  {
    ThreeKeys(values);
    forall q: Params | q.InRange() ensures ReadAll(items) == q.Readings() && |values| == 3 <==>
                                   |values| == 3 && q == Params(values["m"], values["t"], values["p"])
    {
      if |values| == 3 {
        ThreeEntries(values);
        if ReadAll(items) == q.Readings() { SameReadings(q, Params(values["m"], values["t"], values["p"])); }
      }
    }
  }

  lemma ThreeEntries(values: map<string, nat>)
    requires values.Keys == {"m", "t", "p"}
    ensures Entries(values) == Params(values["m"], values["t"], values["p"]).Readings()
  {
  }

  lemma ThreeKeys(values: map<string, nat>)
    requires forall k | k in values :: IsKey(k)
    ensures |values| == 3 <==> values.Keys == {"m", "t", "p"}
    ensures values.Keys == {"m", "t", "p"} <==> "m" in values && "t" in values && "p" in values
  {
    var all := {"m", "t", "p"};
    assert values.Keys <= all && |values.Keys| == |values|;
    if |values| == 3 && values.Keys != all {
      var x :| x in all && x !in values.Keys;
      SubsetSize(values.Keys, all - {x});
    }
  }

  // ---------------------------------------------------------------- the three parsers

  function ParseStrictUint(value: string): Option<nat> {
    if !AllDigits(value) then None else ParseUint(value, MAX_UINT64)
  }

  /** parseArgon2Params of tincver/encrypt.go */
  method ParseParamsServer(raw: string) returns (r: Option<Params>)
    ensures forall q :: r == Some(q) <==> Declares(Split(raw, ','), q)
  {
    var params := Split(raw, ',');
    if |params| != 3 { return None; }
    var seen: map<string, bool> := map[];
    var values: map<string, nat> := map[];
    for n := 0 to |params|
      invariant Tallied(params[..n], values)
      invariant seen.Keys == values.Keys && forall k | k in seen :: seen[k]
    {
      var (key, value, ok) := Cut(params[n], '=');
      if !ok || key == "" || value == "" || (key in seen && seen[key]) {
        if ok && key in seen { DuplicateKey(params, n, values, key); } else { BadItem(params, n); }
        return None;
      }
      if key != "m" && key != "t" && key != "p" {
        BadItem(params, n);
        return None;
      }
      var parsed := ParseStrictUint(value);
      if parsed.None? {
        BadItem(params, n);
        return None;
      }
      TallyItem(params, n, values, key, parsed.value);
      values, seen := values[key := parsed.value], seen[key := true];
    }
    assert params[..|params|] == params;
    TallyEnd(params, values);
    if "m" !in seen || "t" !in seen || "p" !in seen { return None; }
    var memory, iterations, parallelism := values["m"], values["t"], values["p"];
    if memory < MIN_MEMORY || memory > MAX_MEMORY { return None; }
    if iterations < MIN_ITERATIONS || iterations > MAX_ITERATIONS { return None; }
    if parallelism < MIN_PARALLEL || parallelism > MAX_PARALLEL { return None; }
    return Some(Params(memory, iterations, parallelism));
  }

  /** The parameter loop of src/esa/encrypt.go, and with 32-bit numbers that of
      src/esausermanage/main.go. */
  method ParseParams(raw: string, max: nat) returns (r: Option<Params>)
    requires max == MAX_UINT64 || max == MAX_UINT32
    ensures forall q :: r == Some(q) <==> Declares(Split(raw, ','), q)
  {
    var items := Split(raw, ',');
    var values: map<string, nat> := map[];
    for n := 0 to |items|
      invariant Tallied(items[..n], values)
    {
      var (key, value, ok) := Cut(items[n], '=');
      if !ok || (key != "m" && key != "t" && key != "p") {
        BadItem(items, n);
        return None;
      }
      if key in values {
        DuplicateKey(items, n, values, key);
        return None;
      }
      var parsed := ParseUint(value, max);
      if parsed.None? {
        BadItem(items, n);
        return None;
      }
      TallyItem(items, n, values, key, parsed.value);
      values := values[key := parsed.value];
    }
    assert items[..|items|] == items;
    TallyEnd(items, values);
    if |values| != 3
       || values["m"] < MIN_MEMORY || values["m"] > MAX_MEMORY
       || values["t"] < MIN_ITERATIONS || values["t"] > MAX_ITERATIONS
       || values["p"] < MIN_PARALLEL || values["p"] > MAX_PARALLEL
    {
      return None;
    }
    return Some(Params(values["m"], values["t"], values["p"]));
  }

  /** parseArgon2IDHash of tincver/encrypt.go */
  method ParseHashServer(encodedHash: string) returns (r: Option<Argon2Hash>)
    ensures forall h :: r == Some(h) <==> Denotes(encodedHash, h)
  {
    var parts := Split(TrimSpace(encodedHash), '$');
    if |parts| != 6 || parts[0] != "" { return None; }
    if parts[1] != "argon2id" { return None; }
    if parts[2] != "v=19" { return None; }
    var params := ParseParamsServer(parts[3]);
    if params.None? {
      NoParams(encodedHash, params);
      return None;
    }
    assert Declares(Split(parts[3], ','), params.value);
    var salt := Base64.DecodeRaw(parts[4]);
    if salt.None? { return None; }
    if |salt.value| < MIN_LENGTH || |salt.value| > MAX_LENGTH { return None; }
    var hash := Base64.DecodeRaw(parts[5]);
    if hash.None? { return None; }
    if |hash.value| < MIN_LENGTH || |hash.value| > MAX_LENGTH { return None; }
    r := Some(Argon2Hash(params.value, salt.value, hash.value));
    OnlyThis(encodedHash, r.value);
  }

  lemma NoParams(encoded: string, params: Option<Params>)
    requires params.None? && var parts := Split(TrimSpace(encoded), '$');
      |parts| == 6 && forall q :: params == Some(q) <==> Declares(Split(parts[3], ','), q)
    ensures forall h :: !Denotes(encoded, h)
  {
    forall h ensures !Denotes(encoded, h) {
      assert params != Some(h.params);
    }
  }

  lemma OnlyThis(encoded: string, g: Argon2Hash)
    requires Denotes(encoded, g)
    ensures forall h :: Some(g) == Some(h) <==> Denotes(encoded, h)
  {
    forall h | Denotes(encoded, h) ensures h == g {
      DenotesOne(encoded, g, h);
    }
  }

  /** parseArgon2IDHash of src/esa/encrypt.go, and with 32-bit numbers parsePasswordHash of
      src/esausermanage/main.go. */
  method ParseHash(encodedHash: string, max: nat) returns (r: Option<Argon2Hash>)
    requires max == MAX_UINT64 || max == MAX_UINT32
    ensures forall h :: r == Some(h) <==> Denotes(encodedHash, h)
  {
    var parts := Split(TrimSpace(encodedHash), '$');
    if |parts| != 6 || parts[0] != "" || parts[1] != "argon2id" || parts[2] != "v=19" { return None; }
    var params := ParseParams(parts[3], max);
    if params.None? {
      NoParams(encodedHash, params);
      return None;
    }
    assert Declares(Split(parts[3], ','), params.value);
    var salt := Base64.DecodeRaw(parts[4]);
    if salt.None? || |salt.value| < MIN_LENGTH || |salt.value| > MAX_LENGTH { return None; }
    var hash := Base64.DecodeRaw(parts[5]);
    if hash.None? || |hash.value| < MIN_LENGTH || |hash.value| > MAX_LENGTH { return None; }
    r := Some(Argon2Hash(params.value, salt.value, hash.value));
    OnlyThis(encodedHash, r.value);
  }

  /** On every string the three parsers accept alike and return the same hash. */
  method ParsersAgree(encodedHash: string)
    returns (server: Option<Argon2Hash>, esa: Option<Argon2Hash>, manager: Option<Argon2Hash>)
    ensures server == esa == manager
    ensures forall h :: server == Some(h) <==> Denotes(encodedHash, h)
  {
    server := ParseHashServer(encodedHash);
    esa := ParseHash(encodedHash, MAX_UINT64);
    manager := ParseHash(encodedHash, MAX_UINT32);
    if server.Some? { assert Denotes(encodedHash, server.value); }
    if esa.Some? { assert Denotes(encodedHash, esa.value); }
    if manager.Some? { assert Denotes(encodedHash, manager.value); }
  }

  // ---------------------------------------------------------------- rendering

  const PREFIX := "$argon2id$v=19$"

  function RenderItem(key: string, value: nat): string {
    key + "=" + Itoa(value)
  }

  function RenderParams(params: Params): string {
    RenderItem("m", params.memory) + "," + RenderItem("t", params.iterations) + ","
    + RenderItem("p", params.parallelism)
  }

  /** The expression of hashPassword, for any parameters. */
  function Render(h: Argon2Hash): string {
    PREFIX + RenderParams(h.params) + "$" + Base64.EncodeRaw(h.salt) + "$" + Base64.EncodeRaw(h.hash)
  }

  /** No space, no line break and none of the separators of the formats around a hash. */
  predicate Plain(s: string) {
    forall c | c in s :: !IsSpace(c) && c != '\n' && c != ':' && c != '$'
  }

  lemma PlainItem(key: string, value: nat)
    requires IsKey(key) && value <= MAX_UINT64
    ensures Plain(RenderItem(key, value)) && ',' !in RenderItem(key, value)
    ensures Read(RenderItem(key, value)) == Some(Reading(key, value))
  {
    ItoaValue(value);
    ItemOf(key, Itoa(value));
  }

  lemma ItemOf(key: string, digits: string)
    requires IsKey(key) && digits != "" && AllDigits(digits) && Value(digits) <= MAX_UINT64
    ensures var item := key + "=" + digits;
      Plain(item) && ',' !in item && Read(item) == Some(Reading(key, Value(digits)))
  {
    assert key + "=" + digits == key + ['='] + digits;
    SplitSeparator(key, '=', digits);
    hide Cut, Value;
  }

  lemma PlainEncoding(b: seq<Base64.byte>)
    ensures Plain(Base64.EncodeRaw(b))
  {
    Base64.EncodeRawAlphabet(b);
  }

  lemma RenderedParams(params: Params)
    requires params.InRange()
    ensures Plain(RenderParams(params)) && Declares(Split(RenderParams(params), ','), params)
  {
    PlainItem("m", params.memory);
    PlainItem("t", params.iterations);
    PlainItem("p", params.parallelism);
    hide RenderItem;
    ThreeItems(RenderItem("m", params.memory), RenderItem("t", params.iterations),
               RenderItem("p", params.parallelism), params);
  }

  lemma ThreeItems(m: string, t: string, p: string, params: Params)
    requires params.InRange() && Plain(m) && Plain(t) && Plain(p) && ',' !in m && ',' !in t && ',' !in p
    requires Read(m) == Some(Reading("m", params.memory)) && Read(t) == Some(Reading("t", params.iterations))
    requires Read(p) == Some(Reading("p", params.parallelism))
    ensures var raw := m + "," + t + "," + p; Plain(raw) && Declares(Split(raw, ','), params)
  {
    hide Read;
    JoinThree(m, t, p);
    SplitThree(m, t, p);
    ReadThree([m, t, p]);
    PlainThree(m, t, p);
    hide Split, Join, Plain;
  }

  lemma PlainThree(m: string, t: string, p: string)
    requires Plain(m) && Plain(t) && Plain(p)
    ensures Plain(m + "," + t + "," + p)
  {
  }

  lemma SplitThree(m: string, t: string, p: string)
    requires ',' !in m && ',' !in t && ',' !in p
    ensures Split(Join([m, t, p], ','), ',') == [m, t, p]
  {
    SplitJoin([m, t, p], ',');
  }

  lemma JoinThree(x: string, y: string, z: string)
    ensures Join([x, y, z], ',') == x + "," + y + "," + z
  {
    JoinCons(y, [z], ',');
    JoinCons(x, [y, z], ',');
    assert [x] + [y, z] == [x, y, z] && [y] + [z] == [y, z];
    assert x + [','] + (y + [','] + z) == x + "," + y + "," + z;
  }

  lemma JoinCons(first: string, rest: seq<string>, c: char)
    requires rest != []
    ensures Join([first] + rest, c) == first + [c] + Join(rest, c)
  {
    assert ([first] + rest)[1..] == rest;
  }

  function Fields(params: string, salt: string, hash: string): seq<string> {
    ["", "argon2id", "v=19", params, salt, hash]
  }

  lemma JoinFields(params: string, salt: string, hash: string)
    ensures PREFIX + params + "$" + salt + "$" + hash == Join(Fields(params, salt, hash), '$')
  {
    var tail := params + "$" + salt + "$" + hash;
    JoinCons(salt, [hash], '$');
    JoinCons(params, [salt, hash], '$');
    assert Join([params, salt, hash], '$') == tail;
    JoinHead([params, salt, hash]);
    assert Fields(params, salt, hash) == ["", "argon2id", "v=19"] + [params, salt, hash];
    assert PREFIX + params + "$" + salt + "$" + hash == PREFIX + tail;
  }

  lemma JoinHead(rest: seq<string>)
    requires rest != []
    ensures Join(["", "argon2id", "v=19"] + rest, '$') == PREFIX + Join(rest, '$')
  {
    JoinCons("v=19", rest, '$');
    JoinCons("argon2id", ["v=19"] + rest, '$');
    JoinCons("", ["argon2id"] + (["v=19"] + rest), '$');
    assert [""] + (["argon2id"] + (["v=19"] + rest)) == ["", "argon2id", "v=19"] + rest;
    PrefixPieces(Join(rest, '$'));
    hide Join;
  }

  lemma PrefixPieces(tail: string)
    ensures "" + ['$'] + ("argon2id" + ['$'] + ("v=19" + ['$'] + tail)) == PREFIX + tail
  {
    assert PREFIX == "" + ['$'] + ("argon2id" + ['$'] + ("v=19" + ['$']));
  }

  /** A hash string written from its fields denotes them, whatever the order of its items. */
  lemma FieldsDenote(params: string, salt: string, hash: string, h: Argon2Hash)
    requires Plain(params) && Declares(Split(params, ','), h.params)
    requires Plain(salt) && Base64.DecodeRaw(salt) == Some(h.salt) && MIN_LENGTH <= |h.salt| <= MAX_LENGTH
    requires Plain(hash) && Base64.DecodeRaw(hash) == Some(h.hash) && MIN_LENGTH <= |h.hash| <= MAX_LENGTH
    requires hash != ""
    ensures Denotes(PREFIX + params + "$" + salt + "$" + hash, h)
    ensures Trimmed(PREFIX + params + "$" + salt + "$" + hash)
  {
    var encoded := PREFIX + params + "$" + salt + "$" + hash;
    JoinFields(params, salt, hash);
    SplitFields(params, salt, hash);
    Ends(PREFIX + params + "$" + salt + "$", hash);
    TrimSpaceFixes(encoded);
    hide TrimSpace, Split, Join, Base64.DecodeRaw, Declares, PREFIX, Plain;
  }

  lemma Ends(a: string, b: string)
    requires a != "" && b != "" && Plain(b) && a[0] == '$'
    ensures Trimmed(a + b)
  {
    assert b[|b| - 1] in b;
  }

  lemma SplitFields(params: string, salt: string, hash: string)
    requires Plain(params) && Plain(salt) && Plain(hash)
    ensures Split(Join(Fields(params, salt, hash), '$'), '$') == Fields(params, salt, hash)
  {
    SplitJoin(Fields(params, salt, hash), '$');
  }

  /** Parsing what was rendered gives the hash back. */
  lemma RenderRoundTrip(h: Argon2Hash)
    requires h.params.InRange() && MIN_LENGTH <= |h.salt| <= MAX_LENGTH && MIN_LENGTH <= |h.hash| <= MAX_LENGTH
    ensures Denotes(Render(h), h) && Trimmed(Render(h))
  {
    RenderedParams(h.params);
    PlainEncoding(h.salt);
    PlainEncoding(h.hash);
    Base64.RoundTrip(h.salt);
    Base64.RoundTrip(h.hash);
    Base64.EncodeRawAlphabet(h.hash);
    FieldsDenote(RenderParams(h.params), Base64.EncodeRaw(h.salt), Base64.EncodeRaw(h.hash), h);
  }

  const DEFAULT_PARAMS := Params(64 * 1024, 3, 4)

  /** What hashPassword produces is accepted by every parser and has nothing in it that the account
      files would break on. */
  lemma HashPasswordIsReadable(salt: seq<Base64.byte>, digest: seq<Base64.byte>)
    requires |salt| == 16 && |digest| == 32
    ensures var h := Argon2Hash(DEFAULT_PARAMS, salt, digest);
      Denotes(Render(h), h) && Trimmed(Render(h)) && '\n' !in Render(h) && ':' !in Render(h)
  {
    var h := Argon2Hash(DEFAULT_PARAMS, salt, digest);
    RenderRoundTrip(h);
    RenderedParams(h.params);
    PlainEncoding(salt);
    PlainEncoding(digest);
    hide RenderParams, Base64.EncodeRaw;
    OneLine(RenderParams(h.params), Base64.EncodeRaw(salt), Base64.EncodeRaw(digest));
  }

  lemma OneLine(params: string, salt: string, hash: string)
    requires Plain(params) && Plain(salt) && Plain(hash)
    ensures var e := PREFIX + params + "$" + salt + "$" + hash; '\n' !in e && ':' !in e
  {
    PlainPrefix();
    hide PREFIX;
  }

  lemma PlainPrefix()
    ensures '\n' !in PREFIX && ':' !in PREFIX
  {
  }
}
