/** From the account manager's list to the server's two tables: users.txt is written by
    src/esausermanage, read by src/esaipalloc and by src/esa; usrwg.conf is written by
    src/esaipalloc and read by src/esa. */
module Provisioning {
  import opened Common
  import opened Text
  import opened Validation
  import PeerIP
  import Accounts
  import AccountMenu
  import opened IPAlloc
  import UserStore
  import ArgonHash
  import Workers

  function UserNames(accounts: seq<Accounts.Account>): seq<string> {
    seq(|accounts|, i requires 0 <= i < |accounts| => accounts[i].username)
  }

  // ---------------------------------------------------------------- users.txt

  lemma NameOfColonLine(line: string, a: Accounts.Account, comma: bool)
    requires Accounts.LineIs(line, a, comma) && ':' in line
    ensures NameOf(line) == a.username && a.username != ""
  {
  }

  lemma NameOfCommaLine(line: string, a: Accounts.Account)
    requires Accounts.LineIs(line, a, true) && ':' !in line && Trimmed(line)
    ensures NameOf(line) == line != "" && NameOf(line) != a.username
  {
    SplitAbsent(line, ':');
    TrimSpaceFixes(line);
    assert ',' in line;
    assert All(a.username, UsernameChar);
  }

  /** The allocator reads the server's user names out of a users.txt the server accepts if and only
      if every line separates with a colon. */
  lemma NamesAgreeIff(lines: seq<string>, accounts: seq<Accounts.Account>)
    requires Accounts.FileIs(lines, accounts, true) && forall l | l in lines :: Trimmed(l)
    ensures NamesAre(lines, UserNames(accounts)) <==> forall l | l in lines :: ':' in l
  {
    if forall l | l in lines :: ':' in l {
      forall i | 0 <= i < |lines| ensures UserNames(accounts)[i] == NameOf(lines[i]) != "" {
        assert Accounts.LineIs(lines[i], accounts[i], true) && lines[i] in lines;
        NameOfColonLine(lines[i], accounts[i], true);
      }
    } else {
      var i :| 0 <= i < |lines| && ':' !in lines[i];
      assert Accounts.LineIs(lines[i], accounts[i], true) && lines[i] in lines;
      NameOfCommaLine(lines[i], accounts[i]);
      assert UserNames(accounts)[i] != NameOf(lines[i]);
    }
  }

  /** One line in the comma form: the server takes it for the account, the allocator takes all of it
      for a name. */
  lemma CommaLine(a: Accounts.Account)
    requires Accounts.Good(a) && ':' !in a.password
    ensures
      var line := a.username + "," + a.password;
      && Kept(Lines(Unlines([line]))) == [line]
      && Accounts.FileIs([line], [a], true)
      && NamesAre([line], [line]) && !NamesAre([line], UserNames([a]))
  {
    var line := a.username + "," + a.password;
    CommaLineIs(a);
    SingleLine(line, a);
  }

  lemma CommaLineIs(a: Accounts.Account)
    requires Accounts.Good(a) && ':' !in a.password
    ensures
      var line := a.username + "," + a.password;
      Accounts.LineIs(line, a, true) && ':' !in line && Trimmed(line) && !Skipped(line) && '\n' !in line
  {
    Accounts.HashNotEmpty(a.password);
    hide Accounts.ValidHash, Accounts.Parts, Accounts.LineIs, TrimSpace, Split;
    CommaShape(a.username, a.password);
    CommaParts(a.username, a.password);
    CommaMeans(a.username + "," + a.password, a);
  }

  lemma CommaMeans(line: string, a: Accounts.Account)
    requires Accounts.Parts(line, true) == [a.username, a.password] && Accounts.Good(a)
    ensures Accounts.LineIs(line, a, true)
  {
    hide Accounts.ValidHash, Accounts.Parts;
    NoSpaces(a.username, UsernameChar);
    TrimSpaceFixes(a.username);
    TrimSpaceFixes(a.password);
  }

  lemma SingleLine(line: string, a: Accounts.Account)
    requires Accounts.LineIs(line, a, true) && ':' !in line && Trimmed(line) && !Skipped(line) && '\n' !in line
    ensures Kept(Lines(Unlines([line]))) == [line] && Accounts.FileIs([line], [a], true)
    ensures NamesAre([line], [line]) && !NamesAre([line], UserNames([a]))
  {
    NameOfCommaLine(line, a);
    NotTheName(line, a);
    hide *;
    UnlinesRoundTrip([line]);
  }

  lemma NotTheName(line: string, a: Accounts.Account)
    requires Accounts.LineIs(line, a, true) && NameOf(line) == line != "" && line != a.username
    ensures Accounts.FileIs([line], [a], true)
    ensures NamesAre([line], [line]) && !NamesAre([line], UserNames([a]))
  {
    hide Accounts.LineIs, NameOf;
    assert UserNames([a])[0] == a.username;
  }

  lemma CommaParts(name: string, rest: string)
    requires ',' !in name && ':' !in name && ':' !in rest
    ensures var line := name + "," + rest; ':' !in line && Accounts.Parts(line, true) == [name, rest]
  {
    var line := name + "," + rest;
    assert line == name + [','] + rest && line[|name|] == ',';
    SplitSeparator(name, ',', rest);
    assert SplitN(rest, ',', 1) == [rest];
  }

  lemma CommaShape(name: string, rest: string)
    requires Accounts.ValidUsername(name) && rest != "" && Trimmed(rest) && '\n' !in rest
    ensures var line := name + "," + rest; Trimmed(line) && !Skipped(line) && '\n' !in line
    ensures ',' !in name && ':' !in name && name != "" && All(name, UsernameChar)
  {
    var line := name + "," + rest;
    assert line[0] == name[0] && name[0] in name && line[|line| - 1] == rest[|rest| - 1];
  }

  /** A concrete users.txt on which the two readers part: one user in the comma form. */
  lemma ReadersPart() returns (text: string, accounts: seq<Accounts.Account>)
    ensures Accounts.FileIs(Kept(Lines(text)), accounts, true)
    ensures UserNames(accounts) == ["bob"] && !NamesAre(Kept(Lines(text)), UserNames(accounts))
  {
    var d := AccountMenu.Digest(seq(16, _ => 0), seq(32, _ => 0));
    AccountMenu.EditedAccount("bob", d);
    hide ArgonHash.Render, Accounts.Good, Accounts.FileIs, NamesAre;
    var a := Accounts.Account("bob", d.Encoded());
    CommaLine(a);
    accounts := [a];
    text := Unlines([a.username + "," + a.password]);
  }

  /** The account manager writes colons only, so what it saves is read alike by all three. */
  lemma SavedNames(accounts: seq<Accounts.Account>)
    requires Accounts.Wellformed(accounts)
    ensures NamesAre(Kept(Lines(AccountMenu.FileText(accounts))), UserNames(accounts))
  {
    var lines := Kept(Lines(AccountMenu.FileText(accounts)));
    Accounts.SavedReloads(accounts, false);
    forall i | 0 <= i < |lines| ensures UserNames(accounts)[i] == NameOf(lines[i]) != "" {
      assert Accounts.LineIs(lines[i], accounts[i], false);
    }
  }

  // ---------------------------------------------------------------- usrwg.conf

  /** The user a row of the allocator's file means. */
  function UserAt(p: Prefix, i: nat, name: string): UserStore.UserCfg
    requires p.bits <= p.Width()
  {
    UserStore.UserCfg(i + 1, name, PeerIP.PrintIPv4(p.Base() + 2 + i) + "/32")
  }

  function Users(p: Prefix, names: seq<string>): seq<UserStore.UserCfg>
    requires p.bits <= p.Width()
  {
    seq(|names|, i requires 0 <= i < |names| => UserAt(p, i, names[i]))
  }

  lemma LineParts(id: string, name: string, ip: string)
    requires ':' !in id && ':' !in name
    ensures SplitN(id + ":" + name + ":" + ip, ':', 3) == [id, name, ip]
  {
    assert id + ":" + name + ":" + ip == id + [':'] + (name + [':'] + ip);
    SplitSeparator(id, ':', name + [':'] + ip);
    SplitSeparator(name, ':', ip);
    assert SplitN(ip, ':', 1) == [ip];
  }

  lemma LineShape(id: string, name: string, ip: string)
    requires id != "" && AllDigits(id) && All(name, UsernameChar) && ip != "" && Trimmed(ip) && '\n' !in ip
    ensures var line := id + ":" + name + ":" + ip; Trimmed(line) && !Skipped(line) && '\n' !in line
  {
    var line := id + ":" + name + ":" + ip;
    assert line[0] == id[0] && id[0] in id && line[|line| - 1] == ip[|ip| - 1];
  }

  lemma UserLine(id: string, name: string, ip: string, n: nat, v6: PeerIP.V6Parser)
    requires ':' !in id && ':' !in name && Atoi(TrimSpace(id)) == Some(n) && TrimSpace(name) == name
    requires ValidateUsername(name).None? && PeerIP.NormalizePeerIP(TrimSpace(ip), v6) == Some(ip)
    ensures UserStore.LineIs(id + ":" + name + ":" + ip, UserStore.UserCfg(n, name, ip), v6)
  {
    hide TrimSpace, Atoi, ValidateUsername, PeerIP.NormalizePeerIP, SplitN;
    LineParts(id, name, ip);
  }

  lemma NumberColumn(n: nat)
    requires n <= MAX_INT64
    ensures var id := Itoa(n); id != "" && AllDigits(id) && ':' !in id && Atoi(TrimSpace(id)) == Some(n)
  {
    ItoaValue(n);
    AtoiItoa(n);
    DigitsAreTrimmed(Itoa(n));
    TrimSpaceFixes(Itoa(n));
  }

  lemma NameColumn(name: string)
    requires ValidateUsername(name).None?
    ensures TrimSpace(name) == name && All(name, UsernameChar) && ':' !in name
  {
    UsernameAccepted(name);
    NoSpaces(name, UsernameChar);
    TrimSpaceFixes(name);
  }

  lemma AssignmentRoundTrip(a: Assignment, v6: PeerIP.V6Parser)
    requires a.address < PeerIP.TWO_32 && a.id <= MAX_INT64 && ValidateUsername(a.username).None?
    ensures
      var line := AssignmentLine(a);
      && UserStore.LineIs(line, UserStore.UserCfg(a.id, a.username, PeerIP.PrintIPv4(a.address) + "/32"), v6)
      && Trimmed(line) && !Skipped(line) && '\n' !in line
  {
    var ip := PeerIP.PrintIPv4(a.address) + "/32";
    NumberColumn(a.id);
    NameColumn(a.username);
    PeerIP.NormalForm(a.address, v6);
    hide Itoa, PeerIP.PrintIPv4, PeerIP.NormalizePeerIP, ValidateUsername, TrimSpace, Atoi, UserStore.LineIs, Skipped;
    TrimSpaceFixes(ip);
    UserLine(Itoa(a.id), a.username, ip, a.id, v6);
    LineShape(Itoa(a.id), a.username, ip);
  }

  predicate NamesOk(names: seq<string>) {
    && (forall n | n in names :: ValidateUsername(n).None?)
    && (forall i, j | 0 <= i < j < |names| :: names[i] != names[j])
  }

  lemma AddressBound(p: Prefix, names: seq<string>)
    requires p.Valid() && p.v4 && |names| + 3 <= p.Size()
    ensures p.Base() + 2 + |names| < PeerIP.TWO_32
    ensures forall a | a in Assigned(p, names) :: a.address < PeerIP.TWO_32
  {
    WithinWidth(p);
    TwoTo32();
  }

  lemma RowLoads(p: Prefix, i: nat, name: string, v6: PeerIP.V6Parser)
    requires p.bits <= p.Width() && p.Base() + 2 + i < PeerIP.TWO_32 && ValidateUsername(name).None?
    ensures
      var line := AssignmentLine(RowAt(p, i, name));
      UserStore.LineIs(line, UserAt(p, i, name), v6) && Trimmed(line) && !Skipped(line) && '\n' !in line
  {
    hide MaskDown, Pow2, ValidateUsername, UserStore.LineIs, AssignmentLine, Skipped, Trimmed, PeerIP.PrintIPv4;
    AssignmentRoundTrip(RowAt(p, i, name), v6);
  }

  /** The file the allocator writes for an IPv4 prefix with room loads into the intended store. */
  lemma AssignmentsLoad(p: Prefix, names: seq<string>, v6: PeerIP.V6Parser)
    requires p.Valid() && p.v4 && |names| + 3 <= p.Size() && NamesOk(names)
    ensures forall a | a in Assigned(p, names) :: a.address < PeerIP.TWO_32
    ensures UserStore.FileIs(Kept(Lines(Unlines(AssignmentLines(Assigned(p, names))))), Users(p, names), v6)
  {
    AddressBound(p, names);
    UsersUnique(p, names);
    var lines := AssignmentLines(Assigned(p, names));
    forall i | 0 <= i < |lines| ensures Loads(lines[i], Users(p, names)[i], v6) {
      RowBound(p, names, i);
      assert names[i] in names;
      RowLoads(p, i, names[i], v6);
    }
    hide Users, Assigned, AssignmentLines, UserStore.LineIs, Skipped, Trimmed, NamesOk, MaskDown, Pow2;
    LinesLoad(lines, Users(p, names), v6);
  }

  lemma RowBound(p: Prefix, names: seq<string>, i: nat)
    requires p.Valid() && p.v4 && |names| + 3 <= p.Size() && i < |names|
    ensures p.Base() + 2 + i < PeerIP.TWO_32
  {
    AddressBound(p, names);
  }

  ghost predicate Loads(line: string, u: UserStore.UserCfg, v6: PeerIP.V6Parser) {
    UserStore.LineIs(line, u, v6) && Trimmed(line) && !Skipped(line) && '\n' !in line
  }

  lemma LinesLoad(lines: seq<string>, us: seq<UserStore.UserCfg>, v6: PeerIP.V6Parser)
    requires |lines| == |us| && UserStore.Unique(us) && forall i | 0 <= i < |lines| :: Loads(lines[i], us[i], v6)
    ensures UserStore.FileIs(Kept(Lines(Unlines(lines))), us, v6)
  {
    hide UserStore.LineIs, Skipped, Trimmed;
    UnlinesRoundTrip(lines);
  }

  lemma UsersUnique(p: Prefix, names: seq<string>)
    requires p.Valid() && p.v4 && |names| + 3 <= p.Size() && NamesOk(names)
    ensures UserStore.Unique(Users(p, names))
  {
    hide PeerIP.PrintIPv4, ValidateUsername;
    var us := Users(p, names);
    forall i, j | 0 <= i < j < |us| ensures us[i].ip != us[j].ip {
      RowBound(p, names, i);
      RowBound(p, names, j);
      PrintedApart(p.Base() + 2 + i, p.Base() + 2 + j);
    }
    hide MaskDown, Pow2;
  }

  lemma PrintedApart(m: nat, n: nat)
    requires m < PeerIP.TWO_32 && n < PeerIP.TWO_32 && m != n
    ensures PeerIP.PrintIPv4(m) + "/32" != PeerIP.PrintIPv4(n) + "/32"
  {
    var a, b := PeerIP.PrintIPv4(m), PeerIP.PrintIPv4(n);
    if a + "/32" == b + "/32" {
      assert a == (a + "/32")[..|a + "/32"| - 3] == (b + "/32")[..|b + "/32"| - 3] == b;
      PeerIP.PrintInjective(m, n);
    }
  }

  // ---------------------------------------------------------------- end to end

  /** main of src/esaipalloc on the text of users.txt. */
  method GenerateConfig(usersText: string, p: Prefix) returns (r: Option<string>)
    requires p.Valid() && p.v4
    ensures forall names | NamesAre(Kept(Lines(usersText)), names) && p.bits <= 30 && |names| + 3 <= p.Size() ::
              (forall a | a in Assigned(p, names) :: a.address < PeerIP.TWO_32)
              && r == Some(Unlines(AssignmentLines(Assigned(p, names))))
  {
    var usernames := ReadUsernames(usersText);
    if usernames.None? { return None; }
    var outcome := AllocateAddresses(p, usernames.value);
    if outcome.Failed? {
      ErrorKinds(outcome.error);
      return None;
    }
    EmptyOrFits(p, usernames.value);
    AddressBound(p, usernames.value);
    var text := RenderAssignments(outcome.assignments);
    return Some(text);
  }

  lemma ErrorKinds(e: AllocError)
    ensures e == TooNarrow || e == NoRoom || e == Exhausted
  {
  }

  lemma EmptyOrFits(p: Prefix, names: seq<string>)
    requires p.Valid() && p.v4 && p.bits <= 30 && (|names| > 0 ==> |names| + 3 <= p.Size())
    ensures |names| + 3 <= p.Size()
  {
    AtLeastFour(p.Width() - p.bits);
  }

  /** For any account list the manager can hold and any IPv4 prefix that fits: every step goes
      through, the server's user database is the list, and the store has exactly its users, each
      with an address of its own inside the prefix that is neither network, first host nor
      broadcast address: the network part is the prefix's own and the host part is i + 2. */
  method Provision(accounts: seq<Accounts.Account>, p: Prefix, v6: PeerIP.V6Parser)
    returns (db: map<string, string>, store: map<string, UserStore.UserCfg>)
    requires Accounts.Wellformed(accounts) && p.Valid() && p.v4 && p.bits <= 30 && |accounts| + 3 <= p.Size()
    ensures db == Accounts.AsMap(accounts)
    ensures db.Keys == store.Keys == Accounts.Names(accounts)
    ensures forall a: Accounts.Account | a in accounts :: a.username in db && db[a.username] == a.password
    ensures forall i | 0 <= i < |accounts| ::
              var u := accounts[i].username;
              u in store && store[u] == UserAt(p, i, u) && InNetwork(p, RowAt(p, i, u).address, i + 2)
  {
    UserNetworks(accounts, p);
    ghost var names := UserNames(accounts);
    var usersTxt := Accounts.RenderAccounts(accounts);
    AccountMenu.ManagerCanSave(accounts);
    Accounts.SavedReloads(accounts, true);
    SavedNames(accounts);
    NamesAreOk(accounts);
    hide Accounts.Wellformed, Accounts.Savable, Accounts.AsMap, NamesAre, Accounts.FileIs, UserStore.FileIs,
      UserStore.StoreOf,
      Accounts.Names, AssignmentLines, InNetwork, RowAt, Users,
      Accounts.Distinct, UserAt, MaskDown, Pow2, Assigned, Kept, Unlines, Lines;
    var loaded := Accounts.LoadUsersDb(usersTxt.value);
    db := loaded.value;
    var config := GenerateConfig(usersTxt.value, p);
    AssignmentsLoad(p, names, v6);
    var result := UserStore.LoadUserStore(config.value, v6);
    store := result.value;
    TableOfAccounts(accounts);
    StoreOfAccounts(accounts, p);
  }

  lemma UserNetworks(accounts: seq<Accounts.Account>, p: Prefix)
    requires p.Valid() && |accounts| + 3 <= p.Size()
    ensures forall i | 0 <= i < |accounts| :: InNetwork(p, RowAt(p, i, accounts[i].username).address, i + 2)
  {
    forall i | 0 <= i < |accounts| ensures InNetwork(p, RowAt(p, i, accounts[i].username).address, i + 2) {
      HostAddress(p, i + 2);
    }
  }

  lemma TableOfAccounts(accounts: seq<Accounts.Account>)
    requires Accounts.Distinct(accounts)
    ensures
      var db := Accounts.AsMap(accounts);
      && db.Keys == Accounts.Names(accounts)
      && forall a: Accounts.Account | a in accounts :: a.username in db && db[a.username] == a.password
  {
    Accounts.AsMapKeys(accounts);
    forall a: Accounts.Account | a in accounts
      ensures a.username in Accounts.AsMap(accounts) && Accounts.AsMap(accounts)[a.username] == a.password
    {
      var i :| 0 <= i < |accounts| && accounts[i] == a;
      Accounts.AsMapFinds(accounts, i);
    }
  }

  lemma StoreOfAccounts(accounts: seq<Accounts.Account>, p: Prefix)
    requires p.bits <= p.Width() && Accounts.Distinct(accounts)
    ensures
      var store := UserStore.StoreOf(Users(p, UserNames(accounts)));
      && store.Keys == Accounts.Names(accounts)
      && forall i | 0 <= i < |accounts| :: var u := accounts[i].username; u in store && store[u] == UserAt(p, i, u)
  {
    var us := Users(p, UserNames(accounts));
    assert forall i | 0 <= i < |us| :: us[i] == UserAt(p, i, accounts[i].username);
    hide Users, MaskDown, Pow2, PeerIP.PrintIPv4;
    StoreOfUsers(accounts, us);
    hide UserStore.StoreOf;
  }

  lemma NamesAreOk(accounts: seq<Accounts.Account>)
    requires Accounts.Wellformed(accounts)
    ensures NamesOk(UserNames(accounts)) && Accounts.Distinct(accounts)
  {
    var names := UserNames(accounts);
    forall n | n in names ensures ValidateUsername(n).None? {
      var i :| 0 <= i < |accounts| && accounts[i].username == n;
      assert accounts[i] in accounts;
      UsernameAccepted(n);
    }
  }

  lemma StoreOfUsers(accounts: seq<Accounts.Account>, us: seq<UserStore.UserCfg>)
    requires |accounts| == |us| && Accounts.Distinct(accounts)
    requires forall i | 0 <= i < |us| :: us[i].username == accounts[i].username
    ensures UserStore.StoreOf(us).Keys == Accounts.Names(accounts)
    ensures forall i | 0 <= i < |us| ::
              us[i].username in UserStore.StoreOf(us) && UserStore.StoreOf(us)[us[i].username] == us[i]
  {
    UserStore.StoreNames(us);
    hide UserStore.StoreOf;
    SameNames(accounts, us);
    forall i | 0 <= i < |us|
      ensures us[i].username in UserStore.StoreOf(us) && UserStore.StoreOf(us)[us[i].username] == us[i]
    {
      UserStore.StoreFinds(us, i);
    }
  }

  lemma SameNames(accounts: seq<Accounts.Account>, us: seq<UserStore.UserCfg>)
    requires |accounts| == |us| && forall i | 0 <= i < |us| :: us[i].username == accounts[i].username
    ensures UserStore.Names(us) == Accounts.Names(accounts)
  {
    forall n | n in UserStore.Names(us) ensures n in Accounts.Names(accounts) {
      var i :| 0 <= i < |us| && us[i].username == n;
      assert accounts[i] in accounts;
    }
    forall n | n in Accounts.Names(accounts) ensures n in UserStore.Names(us) {
      var i :| 0 <= i < |accounts| && accounts[i].username == n;
      assert us[i] in us;
    }
  }

  // ---------------------------------------------------------------- the store and the workers

  /** IPv6 prints are one word. */
  ghost predicate Printable(v6: PeerIP.V6Parser) {
    forall s: string, t: string, mapped: bool :: v6(s) == Some(PeerIP.V6(t, mapped)) ==> t != "" && OneWord(t)
  }

  predicate OneWord(s: string) {
    forall c | c in s :: !IsSpace(c) && c != '\n'
  }

  lemma NormalIsOneWord(value: string, v6: PeerIP.V6Parser)
    requires Printable(v6) && PeerIP.NormalizePeerIP(value, v6).Some?
    ensures OneWord(PeerIP.NormalizePeerIP(value, v6).value)
  {
    var s := NormalText(value, v6);
    PrintIsOneWord(s, v6);
    OneWordSuffix(PeerIP.PrintIP(PeerIP.ParseIP(s, v6).value));
    hide OneWord, PeerIP.NormalizePeerIP, PeerIP.ParseIP, PeerIP.PrintIP;
  }

  lemma OneWordSuffix(t: string)
    requires OneWord(t)
    ensures OneWord(t + "/32") && OneWord(t + "/128")
  {
  }

  /** The part of the input that is read as an address. */
  lemma NormalText(value: string, v6: PeerIP.V6Parser) returns (s: string)
    requires PeerIP.NormalizePeerIP(value, v6).Some?
    ensures PeerIP.ParseIP(s, v6).Some?
    ensures var text := PeerIP.PrintIP(PeerIP.ParseIP(s, v6).value);
      PeerIP.NormalizePeerIP(value, v6).value == text + "/32"
      || PeerIP.NormalizePeerIP(value, v6).value == text + "/128"
  {
    hide PeerIP.ParseIP, PeerIP.PrintIP, TrimSpace, Cut, IndexOf;
    s := TrimSpace(value);
    if PeerIP.ParseIP(s, v6).None? { s := Cut(s, '/').0; }
  }

  lemma PrintIsOneWord(s: string, v6: PeerIP.V6Parser)
    requires Printable(v6) && PeerIP.ParseIP(s, v6).Some?
    ensures OneWord(PeerIP.PrintIP(PeerIP.ParseIP(s, v6).value))
  {
    match PeerIP.ParseIP(s, v6).value
    case V4(n) => PeerIP.IPv4Chars(n);
    case V6(t, mapped) => assert PeerIP.ParseIPv4(s) != Some(PeerIP.V6(t, mapped));
  }

  /** A loaded store meets what the run of the workers asks of its addresses. */
  lemma LoadedStoreFitsWorkers(lines: seq<string>, us: seq<UserStore.UserCfg>, v6: PeerIP.V6Parser,
                               node: string -> string, settings: seq<string>)
    requires UserStore.FileIs(lines, us, v6) && Printable(v6)
    requires forall u | u in UserStore.StoreOf(us) :: ValidateTincName(node(u)).None? && TrimSpace(node(u)) == node(u)
    requires forall u, w | u in UserStore.StoreOf(us) && w in UserStore.StoreOf(us) && node(u) == node(w) :: u == w
    ensures
      var store := UserStore.StoreOf(us);
      Workers.World(map u | u in store :: store[u].ip, node, settings, v6).Valid()
  {
    var store := UserStore.StoreOf(us);
    forall u | u in store ensures Trimmed(store[u].ip) && '\n' !in store[u].ip {
      UserStore.StoreNames(us);
      var i :| 0 <= i < |us| && us[i] == store[u];
      assert UserStore.LineIs(lines[i], us[i], v6);
      NormalIsOneWord(TrimSpace(SplitN(lines[i], ':', 3)[2]), v6);
      OneWordIsTrimmed(store[u].ip);
    }
    forall u, w | u in store && w in store && store[u].ip == store[w].ip ensures u == w {
      if u != w { UserStore.StoredIpsApart(lines, us, v6, u, w); }
    }
  }

  lemma OneWordIsTrimmed(s: string)
    requires OneWord(s)
    ensures Trimmed(s) && '\n' !in s
  {
    if s != "" { assert s[0] in s && s[|s| - 1] in s; }
  }
}
