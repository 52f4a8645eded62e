/** The account file of src/esausermanage/main.go: loading, saving and the menu's edits, and the
    second reader of the same file in New of src/esa/http_.go. */
module Accounts {
  import opened Common
  import opened Text
  import opened Validation
  import Base64
  import opened ArgonHash

  datatype Account = Account(username: string, password: string)

  /** validateUsername of the account manager */
  predicate ValidUsername(value: string) {
    1 <= |value| <= 32 && All(value, UsernameChar)
  }

  ghost predicate ValidHash(value: string) {
    exists h :: Denotes(value, h)
  }

  method ValidatePasswordHash(value: string) returns (ok: bool)
    ensures ok <==> ValidHash(value)
  {
    var r := ParseHash(value, MAX_UINT32);
    ok := r.Some?;
    if ok { assert Denotes(value, r.value); }
    if ValidHash(value) {
      var h :| Denotes(value, h);
      assert r == Some(h);
    }
  }

  /** A list every tool accepts: valid distinct names, valid hashes, nothing that breaks a line. */
  ghost predicate Wellformed(accounts: seq<Account>) {
    (forall a | a in accounts :: Good(a)) && Distinct(accounts)
  }

  ghost predicate Good(a: Account) {
    ValidUsername(a.username) && ValidHash(a.password) && Trimmed(a.password) && '\n' !in a.password
  }

  ghost predicate Distinct(accounts: seq<Account>) {
    forall i, j | 0 <= i < j < |accounts| :: accounts[i].username != accounts[j].username
  }

  // ---------------------------------------------------------------- what a line and a file mean

  /** The two parts of a line; the server's reader falls back to a comma where there is no colon. */
  function Parts(line: string, comma: bool): seq<string> {
    if comma && ':' !in line && ',' in line then SplitN(line, ',', 2) else SplitN(line, ':', 2)
  }

  ghost predicate LineIs(line: string, a: Account, comma: bool) {
    var parts := Parts(line, comma);
    && |parts| == 2 && a == Account(TrimSpace(parts[0]), TrimSpace(parts[1]))
    && ValidUsername(a.username) && ValidHash(a.password)
  }

  /** The file's kept lines are the accounts, one for one, with distinct names. */
  ghost predicate FileIs(lines: seq<string>, accounts: seq<Account>, comma: bool) {
    |lines| == |accounts| && Distinct(accounts) && forall i | 0 <= i < |lines| :: LineIs(lines[i], accounts[i], comma)
  }

  lemma FileIsOne(lines: seq<string>, a: seq<Account>, b: seq<Account>, comma: bool)
    requires FileIs(lines, a, comma) && FileIs(lines, b, comma)
    ensures a == b
  {
    forall i | 0 <= i < |lines| ensures a[i] == b[i] {
      assert LineIs(lines[i], a[i], comma) && LineIs(lines[i], b[i], comma);
    }
  }

  function Names(accounts: seq<Account>): set<string> {
    set a: Account | a in accounts :: a.username
  }

  lemma FileIsAppend(lines: seq<string>, accounts: seq<Account>, line: string, a: Account, comma: bool)
    requires FileIs(lines, accounts, comma) && LineIs(line, a, comma) && a.username !in Names(accounts)
    ensures FileIs(lines + [line], accounts + [a], comma)
    ensures Names(accounts + [a]) == Names(accounts) + {a.username}
  {
    hide LineIs;
    NextDistinct(accounts, a);
    NamesAppend(accounts, a);
  }

  lemma NamesAppend(accounts: seq<Account>, a: Account)
    ensures Names(accounts + [a]) == Names(accounts) + {a.username}
  {
    var more := accounts + [a];
    assert a in more;
    forall x | x in accounts ensures x in more {
    }
  }

  /** In a good file the next line is an account with a new name. */
  lemma NextLine(lines: seq<string>, n: nat, accounts: seq<Account>, b: seq<Account>, comma: bool)
    requires n < |lines| && FileIs(lines[..n], accounts, comma) && FileIs(lines, b, comma)
    ensures LineIs(lines[n], b[n], comma) && b[n].username !in Names(accounts)
  {
    hide LineIs;
    forall i | 0 <= i < n ensures LineIs(lines[..n][i], b[..n][i], comma) {
      assert LineIs(lines[i], b[i], comma);
    }
    FileIsOne(lines[..n], accounts, b[..n], comma);
    forall a: Account | a in accounts ensures a.username != b[n].username {
      var i :| 0 <= i < n && b[i] == a;
    }
  }

  /** A line that is no account, or repeats a name, spoils the whole file. */
  lemma FileSpoilt(lines: seq<string>, n: nat, accounts: seq<Account>, comma: bool)
    requires n < |lines| && FileIs(lines[..n], accounts, comma)
    requires forall a: Account :: LineIs(lines[n], a, comma) ==> a.username in Names(accounts)
    ensures forall b: seq<Account> :: !FileIs(lines, b, comma)
  {
    forall b: seq<Account> ensures !FileIs(lines, b, comma) {
      if FileIs(lines, b, comma) { NextLine(lines, n, accounts, b, comma); }
    }
  }

  // ---------------------------------------------------------------- loading

  method LoadAccounts(text: string) returns (r: Option<seq<Account>>)
    ensures forall b: seq<Account> :: r == Some(b) <==> FileIs(Kept(Lines(text)), b, false)
  {
    var lines := Lines(text);
    ghost var kept := Kept(lines);
    var accounts: seq<Account> := [];
    var seen: set<string> := {};
    for n := 0 to |lines|
      invariant FileIs(Kept(lines[..n]), accounts, false) && seen == Names(accounts)
    {
      StepKept(lines, n);
      var line := TrimSpace(lines[n]);
      if Skipped(line) { continue; }
      var parts := SplitN(line, ':', 2);
      ghost var m := |Kept(lines[..n])|;
      if |parts| != 2 {
        FileSpoilt(kept, m, accounts, false);
        return None;
      }
      var username, encodedHash := TrimSpace(parts[0]), TrimSpace(parts[1]);
      if !ValidUsername(username) || username in seen {
        FileSpoilt(kept, m, accounts, false);
        return None;
      }
      var ok := ValidatePasswordHash(encodedHash);
      if !ok {
        FileSpoilt(kept, m, accounts, false);
        return None;
      }
      FileIsAppend(Kept(lines[..n]), accounts, line, Account(username, encodedHash), false);
      seen := seen + {username};
      accounts := accounts + [Account(username, encodedHash)];
    }
    assert lines[..|lines|] == lines;
    r := Some(accounts);
    forall b: seq<Account> ensures r == Some(b) <==> FileIs(kept, b, false) {
      if FileIs(kept, b, false) { FileIsOne(kept, accounts, b, false); }
    }
  }

  // ---------------------------------------------------------------- the server's reader

  function AsMap(accounts: seq<Account>): map<string, string> {
    if accounts == [] then map[] else
    var n := |accounts| - 1;
    AsMap(accounts[..n])[accounts[n].username := accounts[n].password]
  }

  lemma {:induction false} AsMapKeys(accounts: seq<Account>)
    ensures AsMap(accounts).Keys == Names(accounts)
  {
    if accounts != [] {
      var n := |accounts| - 1;
      AsMapKeys(accounts[..n]);
      assert accounts == accounts[..n] + [accounts[n]];
    }
  }

  /** With distinct names every account is found under its own with its password hash. */
  lemma {:induction false} AsMapFinds(accounts: seq<Account>, i: nat)
    requires i < |accounts| && Distinct(accounts)
    ensures accounts[i].username in AsMap(accounts) && AsMap(accounts)[accounts[i].username] == accounts[i].password
  {
    var n := |accounts| - 1;
    if i < n {
      assert accounts[..n][i] == accounts[i];
      AsMapFinds(accounts[..n], i);
    }
  }

  /** The checks on one line of the server's reader, with the comma where there is no colon. */
  method ReadDbLine(l: string) returns (r: Option<Account>)
    ensures forall a: Account :: r == Some(a) <==> LineIs(l, a, true)
  {
    var p: seq<string> := [];
    if ':' in l {
      p := SplitN(l, ':', 2);
    } else if ',' in l {
      p := SplitN(l, ',', 2);
    } else {
      SplitAbsent(l, ':');
    }
    if |p| != 2 { return None; }
    var user, pwHash := TrimSpace(p[0]), TrimSpace(p[1]);
    UsernameAccepted(user);
    if ValidateUsername(user).Some? { return None; }
    var ok := ValidatePasswordHash(pwHash);
    if !ok { return None; }
    return Some(Account(user, pwHash));
  }

  lemma NoAccounts(comma: bool)
    ensures FileIs([], [], comma) && AsMap([]) == map[] && Kept([]) == []
  {
  }

  /** The users database New builds: exactly the accounts the file means, commas allowed. */
  method LoadUsersDb(text: string) returns (r: Option<map<string, string>>)
    ensures r.Some? ==> exists b: seq<Account> :: FileIs(Kept(Lines(text)), b, true) && r.value == AsMap(b)
    ensures forall b: seq<Account> | FileIs(Kept(Lines(text)), b, true) :: r == Some(AsMap(b))
  {
    NoAccounts(true);
    hide LineIs, Distinct, AsMap, Skipped, Lines;
    var lines := Lines(text);
    ghost var kept := Kept(lines);
    var db: map<string, string> := map[];
    ghost var accounts: seq<Account> := [];
    for n := 0 to |lines|
      invariant FileIs(Kept(lines[..n]), accounts, true) && db == AsMap(accounts)
    {
      StepKept(lines, n);
      AsMapKeys(accounts);
      var l := TrimSpace(lines[n]);
      if Skipped(l) { continue; }
      ghost var m := |Kept(lines[..n])|;
      var a := ReadDbLine(l);
      if a.None? {
        FileSpoilt(kept, m, accounts, true);
        return None;
      }
      assert LineIs(l, a.value, true);
      if a.value.username in db {
        FileSpoilt(kept, m, accounts, true);
        return None;
      }
      FileIsAppend(Kept(lines[..n]), accounts, l, a.value, true);
      AsMapAppend(accounts, a.value);
      db := db[a.value.username := a.value.password];
      accounts := accounts + [a.value];
    }
    assert lines[..|lines|] == lines;
    r := Some(db);
    forall b: seq<Account> | FileIs(kept, b, true) ensures r == Some(AsMap(b)) {
      FileIsOne(kept, accounts, b, true);
    }
  }

  lemma AsMapAppend(accounts: seq<Account>, a: Account)
    ensures AsMap(accounts + [a]) == AsMap(accounts)[a.username := a.password]
  {
    assert (accounts + [a])[..|accounts|] == accounts;
  }

  // ---------------------------------------------------------------- saving

  function AccountLine(a: Account): string {
    a.username + ":" + a.password
  }

  function AccountLines(accounts: seq<Account>): seq<string> {
    seq(|accounts|, i requires 0 <= i < |accounts| => AccountLine(accounts[i]))
  }

  ghost predicate Savable(accounts: seq<Account>) {
    (forall a | a in accounts :: ValidUsername(a.username) && ValidHash(a.password)) && Distinct(accounts)
  }

  /** The text saveAccounts writes, or None for the error. */
  method RenderAccounts(accounts: seq<Account>) returns (r: Option<string>)
    ensures r.Some? <==> Savable(accounts)
    ensures r.Some? ==> r.value == Unlines(AccountLines(accounts))
  {
    var text := "";
    var seen: set<string> := {};
    for n := 0 to |accounts|
      invariant Savable(accounts[..n]) && seen == Names(accounts[..n])
      invariant text == Unlines(AccountLines(accounts[..n]))
    {
      var account := accounts[n];
      NextSavable(accounts, n);
      if !ValidUsername(account.username) { return None; }
      if account.username in seen { return None; }
      var ok := ValidatePasswordHash(account.password);
      if !ok { return None; }
      LinesOneMore(accounts, n);
      seen := seen + {account.username};
      text := text + account.username + ":" + account.password + "\n";
    }
    assert accounts[..|accounts|] == accounts;
    return Some(text);
  }

  /** The prefix up to and with account n can be saved iff that account is valid and its name new. */
  lemma NextSavable(accounts: seq<Account>, n: nat)
    requires n < |accounts| && Savable(accounts[..n])
    ensures
      var a := accounts[n];
      && (Savable(accounts) ==> Savable(accounts[..n + 1]))
      && (Savable(accounts[..n + 1]) <==>
          ValidUsername(a.username) && ValidHash(a.password) && a.username !in Names(accounts[..n]))
      && Names(accounts[..n + 1]) == Names(accounts[..n]) + {a.username}
  {
    hide ValidUsername, ValidHash;
    var a, less, more := accounts[n], accounts[..n], accounts[..n + 1];
    assert more == less + [a] && a in more;
    NextDistinct(less, a);
    assert forall x | x in more :: x in less || x == a;
    assert forall x | x in less :: x in more;
  }

  lemma NextDistinct(less: seq<Account>, a: Account)
    requires Distinct(less)
    ensures Distinct(less + [a]) <==> a.username !in Names(less)
  {
    var more := less + [a];
    if a.username !in Names(less) {
      forall i, j | 0 <= i < j < |more| ensures more[i].username != more[j].username {
        if j == |less| { assert less[i] in less; }
      }
    } else {
      var x: Account :| x in less && x.username == a.username;
      var i :| 0 <= i < |less| && less[i] == x;
      assert more[i] == x && more[|less|] == a;
    }
  }

  lemma LinesOneMore(accounts: seq<Account>, n: nat)
    requires n < |accounts|
    ensures var a := accounts[n];
      Unlines(AccountLines(accounts[..n + 1]))
      == Unlines(AccountLines(accounts[..n])) + a.username + ":" + a.password + "\n"
  {
    assert AccountLines(accounts[..n + 1]) == AccountLines(accounts[..n]) + [AccountLine(accounts[n])];
    UnlinesAppend(AccountLines(accounts[..n]), AccountLine(accounts[n]));
  }

  // ---------------------------------------------------------------- round trip

  lemma LineRoundTrip(a: Account, comma: bool)
    requires Good(a)
    ensures LineIs(AccountLine(a), a, comma)
    ensures Trimmed(AccountLine(a)) && !Skipped(AccountLine(a)) && '\n' !in AccountLine(a)
  {
    HashNotEmpty(a.password);
    NoSpaces(a.username, UsernameChar);
    NameFirst(a.username, a.password);
    hide ValidUsername, ValidHash, Split, Skipped;
    LineParts(a.username, a.password, comma);
    TrimSpaceFixes(a.username);
    TrimSpaceFixes(a.password);
  }

  lemma LineParts(name: string, rest: string, comma: bool)
    requires ':' !in name
    ensures Parts(name + ":" + rest, comma) == [name, rest]
  {
    var line := name + ":" + rest;
    assert line == name + [':'] + rest && line[|name|] == ':';
    SplitSeparator(name, ':', rest);
    assert SplitN(rest, ':', 1) == [rest];
  }

  lemma NameFirst(name: string, rest: string)
    requires ValidUsername(name) && rest != "" && Trimmed(rest) && '\n' !in rest
    ensures var line := name + ":" + rest; Trimmed(line) && !Skipped(line) && '\n' !in line
    ensures ':' !in name
  {
    var line := name + ":" + rest;
    assert line[0] == name[0] && name[0] in name && line[|line| - 1] == rest[|rest| - 1];
  }

  lemma HashNotEmpty(value: string)
    requires ValidHash(value)
    ensures value != ""
  {
    assert TrimSpace("") == "" && |Split("", '$')| == 1;
  }

  /** What is saved is read back, by the account manager and by the server alike. */
  lemma SavedReloads(accounts: seq<Account>, comma: bool)
    requires Wellformed(accounts)
    ensures FileIs(Kept(Lines(Unlines(AccountLines(accounts)))), accounts, comma)
  {
    var lines := AccountLines(accounts);
    forall i | 0 <= i < |lines|
      ensures LineIs(lines[i], accounts[i], comma) && Trimmed(lines[i]) && !Skipped(lines[i]) && '\n' !in lines[i]
    {
      assert accounts[i] in accounts;
      LineRoundTrip(accounts[i], comma);
    }
    UnlinesRoundTrip(lines);
  }

  /** What is loaded can be saved and reloaded: whatever stood in the file, the list is well formed. */
  lemma LoadedIsWellformed(text: string, accounts: seq<Account>, comma: bool)
    requires FileIs(Kept(Lines(text)), accounts, comma)
    ensures Wellformed(accounts)
  {
    var kept := Kept(Lines(text));
    LinesAreLines(text);
    KeptChars(Lines(text));
    forall a: Account | a in accounts
      ensures Good(a)
    {
      var i :| 0 <= i < |accounts| && accounts[i] == a;
      assert LineIs(kept[i], accounts[i], comma);
      var parts := Parts(kept[i], comma);
      TrimSpaceTrims(parts[1]);
      SecondPartChars(kept[i], comma);
    }
  }

  lemma SecondPartChars(line: string, comma: bool)
    requires |Parts(line, comma)| == 2
    ensures forall c | c in Parts(line, comma)[1] :: c in line
  {
    var c := if comma && ':' !in line && ',' in line then ',' else ':';
    var i := IndexOf(line, c);
    assert Parts(line, comma)[1] == line[i + 1..];
  }

  lemma {:induction false} KeptChars(lines: seq<string>)
    requires forall l | l in lines :: '\n' !in l
    ensures forall k | k in Kept(lines) :: '\n' !in k
  {
    if lines != [] {
      assert lines[0] in lines;
      TrimSpaceTrims(lines[0]);
      KeptChars(lines[1..]);
    }
  }
}
