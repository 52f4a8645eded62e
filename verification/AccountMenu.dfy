/** The menu of src/esausermanage/main.go: edits of the account list in place, each followed by a
    save that may fail. */
module AccountMenu {
  import opened Common
  import opened Text
  import opened Validation
  import Base64
  import opened ArgonHash
  import opened Accounts

  /** A fresh salt and the digest Argon2 computes with it; None when hashPassword fails. */
  datatype Digest = Digest(salt: seq<Base64.byte>, hash: seq<Base64.byte>)
  {
    predicate Valid() { |salt| == 16 && |hash| == 32 }

    function Encoded(): string { Render(Argon2Hash(DEFAULT_PARAMS, salt, hash)) }
  }

  function FileText(accounts: seq<Account>): string {
    Unlines(AccountLines(accounts))
  }

  /** How the file operations of one save turn out: all that writes the temporary file, the rename,
      the removal of the account file, and the second rename. */
  datatype Outcomes = Outcomes(written: bool, renamed: bool, removed: bool, again: bool)
  {
    /** The account file is replaced. */
    predicate Saves() { written && (renamed || (removed && again)) }

    /** The account file is gone: both renames failed and the removal between them did not. */
    predicate Loses() { written && !renamed && removed && !again }
  }

  /** The file after a save. */
  predicate SavedFrom(before: Option<string>, after: Option<string>, accounts: seq<Account>, io: Outcomes) {
    && (io.Saves() ==> after == Some(FileText(accounts)))
    && (io.Loses() ==> after == None)
    && (!io.Saves() && !io.Loses() ==> after == before)
  }

  lemma EditedAccount(username: string, d: Digest)
    requires ValidUsername(username) && d.Valid()
    ensures Good(Account(username, d.Encoded())) && ':' !in d.Encoded()
  {
    HashPasswordIsReadable(d.salt, d.hash);
  }

  lemma ManagerCanSave(accounts: seq<Account>)
    requires Wellformed(accounts)
    ensures Savable(accounts)
  {
  }

  lemma KeptByAppend(accounts: seq<Account>, a: Account)
    requires Wellformed(accounts) && Good(a) && a.username !in Names(accounts)
    ensures Wellformed(accounts + [a])
  {
    hide Good;
    NextDistinct(accounts, a);
  }

  lemma KeptByUpdate(accounts: seq<Account>, i: nat, a: Account)
    requires Wellformed(accounts) && i < |accounts| && Good(a) && a.username == accounts[i].username
    ensures Wellformed(accounts[i := a])
  {
    hide Good;
    forall x | x in accounts[i := a] ensures x in accounts || x == a {
    }
  }

  lemma KeptByRemove(accounts: seq<Account>, i: nat)
    requires Wellformed(accounts) && i < |accounts|
    ensures Wellformed(accounts[..i] + accounts[i + 1..])
  {
    hide Good;
    var less := accounts[..i] + accounts[i + 1..];
    forall x | x in less ensures x in accounts {
    }
    forall j, k | 0 <= j < k < |less| ensures less[j].username != less[k].username {
      assert less[j] == accounts[if j < i then j else j + 1] && less[k] == accounts[if k < i then k else k + 1];
    }
  }

  class Manager {
    var accounts: seq<Account>
    var file: Option<string>

    ghost predicate Valid()
      reads this
    {
      Wellformed(accounts)
    }

    constructor (file: Option<string>)
      ensures this.file == file && accounts == [] && Valid()
    {
      this.file, accounts := file, [];
    }

    /** The start of main: a missing file is an empty list, a bad one ends the program. */
    method Load() returns (ok: bool)
      requires Valid()
      modifies this`accounts
      ensures Valid()
      ensures file == None ==> ok && accounts == []
      ensures file.Some? ==> (ok <==> exists b :: FileIs(Kept(Lines(file.value)), b, false))
      ensures file.Some? && ok ==> FileIs(Kept(Lines(file.value)), accounts, false)
    {
      if file.None? {
        accounts := [];
        return true;
      }
      var r := LoadAccounts(file.value);
      ok := r.Some?;
      if ok {
        assert FileIs(Kept(Lines(file.value)), r.value, false);
        LoadedIsWellformed(file.value, r.value, false);
        accounts := r.value;
      }
    }

    /** saveAccounts: the new text goes to a temporary file first and then takes the place of the
        account file. */
    method Save(io: Outcomes) returns (ok: bool)
      requires Valid()
      modifies this`file
      ensures SavedFrom(old(file), file, accounts, io)
      ensures ok <==> io.Saves()
    {
      ManagerCanSave(accounts);
      var text := RenderAccounts(accounts);
      if text.None? || !io.written { return false; }
      if !io.renamed {
        if !io.removed { return false; }
        file := None;
        if !io.again { return false; }
      }
      file := text;
      return true;
    }

    method Taken(username: string) returns (found: bool)
      ensures found <==> username in Names(accounts)
    {
      found := false;
      for i := 0 to |accounts|
        invariant found <==> username in Names(accounts[..i])
      {
        assert accounts[..i + 1] == accounts[..i] + [accounts[i]];
        assert Names(accounts[..i + 1]) == Names(accounts[..i]) + {accounts[i].username};
        found := found || accounts[i].username == username;
      }
      assert accounts[..|accounts|] == accounts;
    }

    method Create(username: string, hashed: Option<Digest>, io: Outcomes) returns (created: bool)
      requires Valid() && (hashed.Some? ==> hashed.value.Valid())
      modifies this
      ensures Valid()
      ensures created <==> ValidUsername(username) && username !in Names(old(accounts)) && hashed.Some?
      ensures accounts == if created then old(accounts) + [Account(username, hashed.value.Encoded())] else old(accounts)
      ensures if created then SavedFrom(old(file), file, accounts, io) else file == old(file)
    {
      if !ValidUsername(username) { return false; }
      var found := Taken(username);
      if found || hashed.None? { return false; }
      var account := Account(username, hashed.value.Encoded());
      EditedAccount(username, hashed.value);
      hide Good;
      KeptByAppend(accounts, account);
      accounts := accounts + [account];
      var _ := Save(io);
      return true;
    }

    /** The index of a name, or the number of accounts. */
    method Find(username: string) returns (i: nat)
      ensures i <= |accounts| && (i < |accounts| ==> accounts[i].username == username)
      ensures forall j | 0 <= j < i :: accounts[j].username != username
    {
      i := 0;
      while i < |accounts| && accounts[i].username != username
        invariant i <= |accounts| && forall j | 0 <= j < i :: accounts[j].username != username
      {
        i := i + 1;
      }
    }

    method UpdatePassword(username: string, hashed: Option<Digest>, io: Outcomes) returns (updated: bool)
      requires Valid() && (hashed.Some? ==> hashed.value.Valid())
      modifies this
      ensures Valid()
      ensures updated <==> username in Names(old(accounts)) && hashed.Some?
      ensures |accounts| == |old(accounts)|
      ensures forall i | 0 <= i < |accounts| ::
                accounts[i] == if updated && old(accounts)[i].username == username
                               then Account(username, hashed.value.Encoded()) else old(accounts)[i]
      ensures if updated then SavedFrom(old(file), file, accounts, io) else file == old(file)
    {
      var index := Find(username);
      if index == |accounts| || hashed.None? { return false; }
      assert accounts[index] in accounts;
      var account := Account(username, hashed.value.Encoded());
      EditedAccount(username, hashed.value);
      KeptByUpdate(accounts, index, account);
      accounts := accounts[index := account];
      var _ := Save(io);
      return true;
    }

    method Delete(username: string, io: Outcomes) returns (deleted: bool)
      requires Valid()
      modifies this
      ensures Valid()
      ensures deleted <==> username in Names(old(accounts))
      ensures !deleted ==> accounts == old(accounts)
      ensures deleted ==> exists i :: 0 <= i < |old(accounts)| && old(accounts)[i].username == username
                                      && accounts == old(accounts)[..i] + old(accounts)[i + 1..]
      ensures username !in Names(accounts)
      ensures if deleted then SavedFrom(old(file), file, accounts, io) else file == old(file)
    {
      var index := Find(username);
      if index == |accounts| { return false; }
      assert accounts[index] in accounts;
      KeptByRemove(accounts, index);
      ghost var was := accounts;
      accounts := accounts[..index] + accounts[index + 1..];
      assert was[index].username == username && accounts == was[..index] + was[index + 1..];
      var _ := Save(io);
      return true;
    }
  }

  /** Any list the menu can reach survives a save and a reload unchanged, in the manager and in
      the server. */
  lemma SaveThenLoad(accounts: seq<Account>, loaded: seq<Account>, comma: bool)
    requires Wellformed(accounts)
    requires FileIs(Kept(Lines(FileText(accounts))), loaded, comma)
    ensures loaded == accounts
  {
    SavedReloads(accounts, comma);
    FileIsOne(Kept(Lines(FileText(accounts))), accounts, loaded, comma);
  }
}
