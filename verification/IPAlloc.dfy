/** The address allocator of src/esaipalloc/ipalloc.go.  An address is its number; arithmetic is
    the same for both families, text is IPv4. */
module IPAlloc {
  import opened Common
  import opened Text
  import PeerIP

  // ---------------------------------------------------------------- reading the names

  ghost predicate NamesAre(lines: seq<string>, names: seq<string>) {
    && |names| == |lines|
    && (forall i | 0 <= i < |lines| :: names[i] == NameOf(lines[i]) && names[i] != "")
    && (forall i, j | 0 <= i < j < |names| :: names[i] != names[j])
  }

  /** The name on a line: what stands before the first colon. */
  function NameOf(line: string): string {
    TrimSpace(SplitN(line, ':', 2)[0])
  }

  method ReadUsernames(text: string) returns (r: Option<seq<string>>)
    ensures forall names :: r == Some(names) <==> NamesAre(Kept(Lines(text)), names)
  {
    var lines := Lines(text);
    var seen: set<string> := {};
    var usernames: seq<string> := [];
    for n := 0 to |lines|
      invariant NamesAre(Kept(lines[..n]), usernames) && seen == set u | u in usernames
    {
      StepKept(lines, n);
      var line := TrimSpace(lines[n]);
      if Skipped(line) { continue; }
      var parts := SplitN(line, ':', 2);
      var username := TrimSpace(parts[0]);
      if username == "" || username in seen {
        NamesSpoilt(Kept(lines), |Kept(lines[..n])|, usernames);
        return None;
      }
      seen := seen + {username};
      usernames := usernames + [username];
    }
    assert lines[..|lines|] == lines;
    r := Some(usernames);
    forall names ensures r == Some(names) <==> NamesAre(Kept(lines), names) {
      if NamesAre(Kept(lines), names) { assert names == usernames; }
    }
  }

  lemma NamesSpoilt(lines: seq<string>, n: nat, names: seq<string>)
    requires n < |lines| && NamesAre(lines[..n], names)
    requires NameOf(lines[n]) == "" || NameOf(lines[n]) in names
    ensures forall all :: !NamesAre(lines, all)
  {
    forall all ensures !NamesAre(lines, all) {
      if NamesAre(lines, all) { NextName(lines, n, names, all); }
    }
  }

  lemma NextName(lines: seq<string>, n: nat, names: seq<string>, all: seq<string>)
    requires n < |lines| && NamesAre(lines[..n], names) && NamesAre(lines, all)
    ensures NameOf(lines[n]) == all[n] != "" && all[n] !in names
  {
    forall i | 0 <= i < n ensures names[i] == all[i] {
      assert lines[..n][i] == lines[i];
    }
  }

  // ---------------------------------------------------------------- allocating

  datatype Prefix = Prefix(v4: bool, addr: nat, bits: nat)
  {
    function Width(): nat { if v4 then 32 else 128 }

    predicate Valid() { bits <= Width() && addr < Pow2(Width()) }

    /** The number of addresses. */
    function Size(): (n: nat)
      requires bits <= Width()
      ensures n >= 1
    {
      Pow2(Width() - bits)
    }

    /** The network address. */
    function Base(): nat
      requires bits <= Width()
    {
      MaskDown(addr, Size())
    }

    predicate Contains(a: nat)
      requires bits <= Width()
    {
      Base() <= a < Base() + Size()
    }
  }

  /** The largest multiple of size up to a. */
  function MaskDown(a: nat, size: nat): nat
    requires size >= 1
  {
    ProductNat(a / size, size);
    a / size * size
  }

  lemma ProductNat(a: nat, b: nat)
    ensures a * b >= 0
  {
  }

  function Pow2(n: nat): (p: nat)
    ensures p >= 1
  {
    if n == 0 then 1 else 2 * Pow2(n - 1)
  }

  datatype Assignment = Assignment(id: nat, username: string, address: nat)

  datatype AllocError = TooNarrow | NoRoom | Exhausted

  datatype AllocResult = Allocated(assignments: seq<Assignment>) | Failed(error: AllocError)

  /** The i-th user gets number i + 1 and the i-th address after network and first host. */
  function RowAt(p: Prefix, i: nat, username: string): Assignment
    requires p.bits <= p.Width()
  {
    Assignment(i + 1, username, p.Base() + 2 + i)
  }

  function Assigned(p: Prefix, usernames: seq<string>): seq<Assignment>
    requires p.bits <= p.Width()
  {
    seq(|usernames|, i requires 0 <= i < |usernames| => RowAt(p, i, usernames[i]))
  }

  /** Address a is number k of the network the prefix names, said without its first address: the
      network part is that of the prefix and the host part is k. */
  predicate InNetwork(p: Prefix, a: nat, k: nat)
    requires p.bits <= p.Width()
  {
    a / Pow2(p.Width() - p.bits) == p.addr / Pow2(p.Width() - p.bits) && a % Pow2(p.Width() - p.bits) == k
  }

  /** Masking clears the host part and nothing else. */
  lemma NetworkAddress(p: Prefix)
    requires p.Valid()
    ensures p.Base() <= p.addr < p.Base() + p.Size() && p.Base() % p.Size() == 0
  {
    var size := p.Size();
    assert p.addr == p.addr / size * size + p.addr % size;
    QuotientOf(p.Base(), p.addr / size, 0, size);
  }

  lemma HostAddress(p: Prefix, k: nat)
    requires p.Valid() && k < p.Size()
    ensures InNetwork(p, p.Base() + k, k)
  {
    QuotientOf(p.Base() + k, p.addr / p.Size(), k, p.Size());
  }

  lemma QuotientOf(a: nat, q: nat, k: nat, size: nat)
    requires size >= 1 && k < size && a == q * size + k
    ensures a / size == q && a % size == k
  {
    var e := a / size;
    assert a == e * size + a % size;
    if e > q {
      Monotone(q + 1, e, size);
    } else if e < q {
      Monotone(e + 1, q, size);
    }
  }

  /** allocateAddresses on a prefix from ParsePrefix.  For IPv4 the capacity check decides alone and
      the exhaustion branch is dead; for IPv6 that branch is the check. */
  method AllocateAddresses(p: Prefix, usernames: seq<string>) returns (r: AllocResult)
    requires p.Valid()
    ensures r == Failed(TooNarrow) <==> p.v4 && p.bits > 30
    ensures r == Failed(NoRoom) <==> p.v4 && p.bits <= 30 && |usernames| > 0 && |usernames| + 3 > p.Size()
    ensures r == Failed(Exhausted) <==> !p.v4 && |usernames| > 0 && |usernames| + 2 > p.Size()
    ensures r.Allocated? ==> r.assignments == Assigned(p, usernames)
    ensures r.Allocated? ==> forall i | 0 <= i < |usernames| ::
              var a := r.assignments[i];
              a.id == i + 1 && a.username == usernames[i] && InNetwork(p, a.address, i + 2)
  {
    hide InNetwork, MaskDown;
    if p.v4 && p.bits > 30 { return Failed(TooNarrow); }
    if p.v4 { AtLeastFour(p.Width() - p.bits); }
    if |usernames| == 0 { return Allocated([]); }
    if p.v4 {
      var maxUsers := Pow2(32 - p.bits) - 3;
      if |usernames| > maxUsers { return Failed(NoRoom); }
    }
    var assignments: seq<Assignment> := [];
    var address := p.Base() + 2;
    for index := 0 to |usernames|
      invariant address == p.Base() + 2 + index
      invariant assignments == Assigned(p, usernames)[..index]
      invariant index > 0 ==> index + 2 <= p.Size()
      invariant forall i | 0 <= i < index :: InNetwork(p, assignments[i].address, i + 2)
    {
      if !p.Contains(address) { return Failed(Exhausted); }
      HostAddress(p, index + 2);
      assignments := assignments + [Assignment(index + 1, usernames[index], address)];
      address := address + 1;
    }
    return Allocated(assignments);
  }

  lemma AtLeastFour(n: nat)
    requires n >= 2
    ensures Pow2(n) >= 4
  {
    if n > 2 { AtLeastFour(n - 1); }
  }

  lemma {:induction false} PowersAdd(m: nat, n: nat)
    ensures Pow2(m + n) == Pow2(m) * Pow2(n)
  {
    if m > 0 {
      PowersAdd(m - 1, n);
      Doubled(Pow2(m - 1), Pow2(n));
    }
  }

  lemma Doubled(a: nat, b: nat)
    ensures 2 * (a * b) == 2 * a * b
  {
  }

  /** The addresses of a prefix stay within the address width. */
  lemma WithinWidth(p: Prefix)
    requires p.Valid()
    ensures p.Base() <= p.addr && p.Base() + p.Size() <= Pow2(p.Width())
  {
    var size := p.Size();
    var q := p.addr / size;
    PowersAdd(p.bits, p.Width() - p.bits);
    assert p.Width() == p.bits + (p.Width() - p.bits);
    QuotientBelow(p.addr, size, Pow2(p.bits));
  }

  lemma QuotientBelow(a: nat, size: nat, count: nat)
    requires size >= 1 && a < count * size
    ensures a / size * size <= a && a / size * size + size <= count * size
  {
    var q := a / size;
    assert a == q * size + a % size;
    if q >= count { Monotone(count, q, size); } else { Monotone(q + 1, count, size); }
  }

  lemma Monotone(a: nat, b: nat, k: nat)
    requires a <= b
    ensures a * k <= b * k
  {
  }

  /** Allocated IPv4 addresses are distinct, inside the prefix, and none is the network, the first
      host or the broadcast address. */
  lemma AddressesAreUsable(p: Prefix, usernames: seq<string>, i: nat, j: nat)
    requires p.Valid() && p.v4 && i < |usernames| && j < |usernames| && |usernames| + 3 <= p.Size()
    ensures
      var (a, b) := (Assigned(p, usernames)[i].address, Assigned(p, usernames)[j].address);
      && InNetwork(p, a, i + 2)
      && p.Contains(a) && a != p.Base() && a != p.Base() + 1 && a != p.Base() + p.Size() - 1
      && a < PeerIP.TWO_32 && (a == b <==> i == j)
  {
    WithinWidth(p);
    HostAddress(p, i + 2);
    hide InNetwork, MaskDown;
    TwoTo32();
  }

  lemma TwoTo32()
    ensures Pow2(32) == PeerIP.TWO_32
  {
    assert Pow2(8) == 0x100;
    PowersAdd(8, 8);
    PowersAdd(16, 16);
  }

  // ---------------------------------------------------------------- writing

  function AssignmentLine(a: Assignment): string
    requires a.address < PeerIP.TWO_32
  {
    Itoa(a.id) + ":" + a.username + ":" + (PeerIP.PrintIPv4(a.address) + "/32")
  }

  function AssignmentLines(assignments: seq<Assignment>): seq<string>
    requires forall a | a in assignments :: a.address < PeerIP.TWO_32
  {
    seq(|assignments|, i requires 0 <= i < |assignments| => AssignmentLine(assignments[i]))
  }

  /** The text writeAssignments puts into the file. */
  method RenderAssignments(assignments: seq<Assignment>) returns (text: string)
    requires forall a | a in assignments :: a.address < PeerIP.TWO_32
    ensures text == Unlines(AssignmentLines(assignments))
  {
    text := "";
    for n := 0 to |assignments|
      invariant text == Unlines(AssignmentLines(assignments[..n]))
    {
      var line := AssignmentLine(assignments[n]);
      assert AssignmentLines(assignments[..n + 1]) == AssignmentLines(assignments[..n]) + [line];
      UnlinesAppend(AssignmentLines(assignments[..n]), line);
      text := text + line + "\n";
    }
    assert assignments[..|assignments|] == assignments;
  }
}
