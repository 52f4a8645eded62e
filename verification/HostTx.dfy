/** The transaction of tincver/updateconf.go on the tinc hosts directory: backup, temporary file,
    rename, reload, then commit or rollback.  Every file operation may fail. */
module HostTx {
  import opened Common
  import opened Text
  import opened Validation
  import PeerIP
  import Base64

  type Files = map<string, string>

  /** Names os.CreateTemp makes here; tinc ignores them and no node name is one. */
  predicate Temp(name: string) {
    name != "" && name[0] == '.'
  }

  function Look(files: Files, name: string): Option<string> {
    if name in files then Some(files[name]) else None
  }

  ghost predicate SameElsewhere(a: Files, b: Files, host: string) {
    forall n: string | !Temp(n) && n != host :: Look(a, n) == Look(b, n)
  }

  /** The temporary files are the same, apart from one. */
  ghost predicate SameTemps(a: Files, b: Files, own: string) {
    forall t: string | Temp(t) && t != own :: Look(a, t) == Look(b, t)
  }

  /** One update as seen from outside: from the files before it to the host's new content, or to
      no file. */
  datatype Update = Update(host: string, before: Files, after: Option<string>)

  /** What an observer may see of the directory while an update runs: the other hosts untouched,
      and the host's old file, its complete new file, or no file, the last only in a removal or
      once a rename of this update has failed. */
  ghost predicate Visible(files: Files, u: Update, renameFailed: bool) {
    && SameElsewhere(files, u.before, u.host)
    && (|| Look(files, u.host) == Look(u.before, u.host)
        || (u.after.Some? && Look(files, u.host) == u.after)
        || (u.host !in files && (u.after.None? || renameFailed)))
  }

  /** The update is over and went through. */
  ghost predicate Applied(files: Files, u: Update) {
    Look(files, u.host) == u.after && SameElsewhere(files, u.before, u.host)
  }

  /** The update is over, or has not begun, and left no mark. */
  ghost predicate Undone(files: Files, u: Update) {
    Look(files, u.host) == Look(u.before, u.host) && SameElsewhere(files, u.before, u.host)
  }

  /** A state of the directory, with the number of renames that had failed by then. */
  datatype Snapshot = Snapshot(files: Files, renames: nat)

  /** Every state from start on is one the update may show; renames counts the renames that had
      failed when the update began. */
  ghost predicate AllShow(trace: seq<Snapshot>, start: nat, u: Update, renames: nat) {
    forall i | start <= i < |trace| ::
      trace[i].renames >= renames && Visible(trace[i].files, u, trace[i].renames > renames)
  }

  ghost predicate AllUndone(trace: seq<Snapshot>, start: nat, u: Update, renames: nat) {
    forall i | start <= i < |trace| :: trace[i].renames >= renames && Undone(trace[i].files, u)
  }

  /** What a part of an update shows, the whole update shows: the part begins in a state of the
      whole and puts in the whole's new content or its old one. */
  lemma PartShows(trace: seq<Snapshot>, start: nat, part: Update, from: nat, u: Update, renames: nat)
    requires AllShow(trace, start, part, from) && renames <= from && part.host == u.host
    requires Visible(part.before, u, from > renames)
    requires part.after.Some? && (part.after == u.after || part.after == Look(u.before, u.host))
    ensures AllShow(trace, start, u, renames)
  {
  }

  /** How many operations have failed so far, by kind. */
  datatype Faults = Faults(renames: nat, removals: nat, others: nat)
  {
    predicate Upto(f: Faults) {
      renames <= f.renames && removals <= f.removals && others <= f.others
    }

    /** The count after an operation of the last kind. */
    function Tried(ok: bool): Faults {
      if ok then this else this.(others := others + 1)
    }

    /** Between this count and the later one a rename or a removal has failed. */
    predicate MovesFailedBy(f: Faults) {
      renames < f.renames || removals < f.removals
    }
  }

  datatype Removal = Removed | NotExist | RemoveFailed

  /** The hosts directory.  The trace records every state the directory goes through, faults counts
      the failed operations, and rollbacks notes that count at the start of each rollback. */
  class HostsDir {
    var files: Files
    var present: bool
    ghost var trace: seq<Snapshot>
    ghost var faults: Faults
    ghost var rollbacks: seq<Faults>

    constructor ()
      ensures files == map[] && !present && trace == [] && faults == Faults(0, 0, 0) && rollbacks == []
    {
      files, present, trace, faults, rollbacks := map[], false, [], Faults(0, 0, 0), [];
    }

    ghost predicate Valid()
      reads this
    {
      !present ==> files == map[]
    }

    /** An operation that leaves the directory alone: stat, chmod, sync, close. */
    method Try() returns (ok: bool)
      modifies this`faults
      ensures faults == old(faults).Tried(ok)
    {
      ok := *;
      faults := faults.Tried(ok);
    }

    /** The tinc reload, with its outcome. */
    method ReloadTinc(reloaded: bool)
      modifies this`faults
      ensures faults == old(faults).Tried(reloaded)
    {
      faults := faults.Tried(reloaded);
    }

    method MkdirAll() returns (ok: bool)
      modifies this`present, this`faults
      ensures old(present) ==> present
      ensures ok ==> present
      ensures faults == old(faults).Tried(ok)
    {
      ok := *;
      if ok { present := true; }
      faults := faults.Tried(ok);
    }

    /** os.CreateTemp: a new empty file under a name of its own. */
    method CreateTemp(prefix: string) returns (name: string, ok: bool)
      requires Valid() && Temp(prefix)
      modifies this`files, this`trace, this`faults
      ensures Valid()
      ensures faults == old(faults).Tried(ok)
      ensures !ok ==> files == old(files) && trace == old(trace)
      ensures ok ==> Temp(name) && name !in old(files) && files == old(files)[name := ""]
      ensures ok ==> trace == old(trace) + [Snapshot(files, faults.renames)]
    {
      var suffix: string := *;
      name := prefix + suffix;
      ok := *;
      ok := ok && present && name !in files;
      faults := faults.Tried(ok);
      if ok {
        files := files[name := ""];
        trace := trace + [Snapshot(files, faults.renames)];
      }
    }

    /** Writing a temporary file; a failed write leaves any part of the content. */
    method Write(name: string, content: string) returns (ok: bool, ghost part: string)
      requires Valid() && name in files && Temp(name)
      modifies this`files, this`trace, this`faults
      ensures Valid()
      ensures faults == old(faults).Tried(ok)
      ensures files == old(files)[name := part] && (ok ==> part == content)
      ensures trace == old(trace) + [Snapshot(files, faults.renames)]
    {
      ok := *;
      var written: string := *;
      if ok { written := content; }
      part := written;
      faults := faults.Tried(ok);
      files := files[name := written];
      trace := trace + [Snapshot(files, faults.renames)];
    }

    /** os.Open followed by reading to the end. */
    method Read(name: string) returns (content: Option<string>, missing: bool)
      modifies this`faults
      ensures faults == old(faults).Tried(content.Some? || missing)
      ensures missing ==> name !in files && content == None
      ensures content.Some? ==> Look(files, name) == content
    {
      var ok := *;
      content := if ok then Look(files, name) else None;
      missing := ok && name !in files;
      faults := faults.Tried(ok);
    }

    method Remove(name: string) returns (r: Removal)
      requires Valid()
      modifies this`files, this`trace, this`faults
      ensures Valid()
      ensures r.NotExist? ==> name !in old(files)
      ensures files == if r.Removed? then old(files) - {name} else old(files)
      ensures faults == if r.RemoveFailed? then old(faults).(removals := old(faults).removals + 1) else old(faults)
      ensures trace == if r.Removed? then old(trace) + [Snapshot(files, faults.renames)] else old(trace)
    {
      var ok := *;
      if !ok {
        faults := faults.(removals := faults.removals + 1);
        return RemoveFailed;
      }
      if name !in files { return NotExist; }
      files := files - {name};
      trace := trace + [Snapshot(files, faults.renames)];
      return Removed;
    }

    /** os.Rename: atomic, and without effect when it fails. */
    method Rename(src: string, dst: string) returns (ok: bool)
      requires Valid()
      modifies this`files, this`trace, this`faults
      ensures Valid()
      ensures ok ==> src in old(files) && files == (old(files) - {src})[dst := old(files)[src]]
      ensures !ok ==> files == old(files)
      ensures faults == if ok then old(faults) else old(faults).(renames := old(faults).renames + 1)
      ensures trace == if ok then old(trace) + [Snapshot(files, faults.renames)] else old(trace)
    {
      ok := *;
      ok := ok && src in files;
      if ok {
        files := (files - {src})[dst := files[src]];
        trace := trace + [Snapshot(files, faults.renames)];
      } else {
        faults := faults.(renames := faults.renames + 1);
      }
    }

    /** os.Remove on the directory itself: only when it is empty. */
    method RemoveDir()
      requires Valid()
      modifies this`present, this`faults
      ensures Valid()
      ensures old(faults).Upto(faults)
      ensures present != old(present) ==> old(present) && files == map[]
    {
      var ok := *;
      faults := faults.Tried(ok);
      if ok && files == map[] { present := false; }
    }
  }

  datatype Conf = Conf(username: string, nodename: string, userpublic: string, userip: string, status: bool)
  {
    function After(): Option<string> {
      if status then Some(BuildTincHost(userip, userpublic)) else None
    }
  }

  // ---------------------------------------------------------------- the content of a host file

  function TrimEquals(s: string): string {
    if s != "" && s[|s| - 1] == '=' then TrimEquals(s[..|s| - 1]) else s
  }

  function HostLine(name: string, value: string): string {
    name + " = " + value + "\n"
  }

  function BuildTincHost(userip: string, userpublic: string): string {
    HostLine("Subnet", TrimSpace(userip)) + HostLine("Ed25519PublicKey", TrimEquals(TrimSpace(userpublic)))
  }

  /** tinc's view: the value of a variable is what follows "name = " on its line. */
  function Variable(content: string, name: string): Option<string> {
    var i := IndexOf(content, '\n');
    if i == |content| then None
    else if name + " = " <= content[..i] then Some(content[|name| + 3..i])
    else Variable(content[i + 1..], name)
  }

  lemma {:induction false} TrimEqualsPrefix(s: string)
    ensures TrimEquals(s) <= s
  {
    if s != "" && s[|s| - 1] == '=' { TrimEqualsPrefix(s[..|s| - 1]); }
  }

  /** What is cut off is the equals signs at the end, all of them and nothing else. */
  lemma {:induction false} TrimEqualsCuts(s: string)
    ensures
      var t := TrimEquals(s);
      t <= s && (forall i | |t| <= i < |s| :: s[i] == '=') && (t == "" || t[|t| - 1] != '=')
  {
    if s != "" && s[|s| - 1] == '=' {
      TrimEqualsCuts(s[..|s| - 1]);
    }
  }

  lemma VariableLine(name: string, value: string, rest: string, other: string)
    requires '\n' !in name && '\n' !in value
    ensures Variable(HostLine(name, value) + rest, name) == Some(value)
    ensures other != "" && name != "" && other[0] != name[0] ==>
              Variable(HostLine(name, value) + rest, other) == Variable(rest, other)
  {
    var line := name + " = " + value;
    assert "\n" == ['\n'] && HostLine(name, value) + rest == line + ['\n'] + rest;
    IndexOfSeparator(line, '\n', rest);
    assert line[|name| + 3..] == value;
    assert name + " = " <= line;
    if other != "" && name != "" && other[0] != name[0] {
      assert (other + " = ")[0] == other[0] && line[0] == name[0];
    }
  }

  /** A host file declares exactly the trimmed address and the unpadded key. */
  lemma HostFileSays(userip: string, userpublic: string)
    requires '\n' !in TrimSpace(userip) && '\n' !in TrimSpace(userpublic)
    ensures Variable(BuildTincHost(userip, userpublic), "Subnet") == Some(TrimSpace(userip))
    ensures Variable(BuildTincHost(userip, userpublic), "Ed25519PublicKey") == Some(TrimEquals(TrimSpace(userpublic)))
  {
    var ip, key := TrimSpace(userip), TrimEquals(TrimSpace(userpublic));
    TrimEqualsPrefix(TrimSpace(userpublic));
    hide TrimSpace, TrimEquals, Variable, HostLine;
    VariableLine("Subnet", ip, HostLine("Ed25519PublicKey", key), "Ed25519PublicKey");
    VariableLine("Ed25519PublicKey", key, "", "Subnet");
    assert HostLine("Ed25519PublicKey", key) + "" == HostLine("Ed25519PublicKey", key);
  }

  /** Nothing else is in the file: read line by line it is these two lines. */
  lemma HostFileLines(userip: string, userpublic: string)
    requires '\n' !in TrimSpace(userip) && '\n' !in TrimSpace(userpublic)
    ensures Split(BuildTincHost(userip, userpublic), '\n') ==
      ["Subnet = " + TrimSpace(userip), "Ed25519PublicKey = " + TrimEquals(TrimSpace(userpublic)), ""]
  {
    var ip, key := TrimSpace(userip), TrimEquals(TrimSpace(userpublic));
    TrimEqualsPrefix(TrimSpace(userpublic));
    hide TrimSpace, TrimEquals;
    TwoHostLines("Subnet", ip, "Ed25519PublicKey", key);
    assert "Subnet" + " = " == "Subnet = " && "Ed25519PublicKey" + " = " == "Ed25519PublicKey = ";
    hide HostLine;
  }

  lemma TwoHostLines(m: string, v: string, n: string, w: string)
    requires '\n' !in m + v + n + w
    ensures Split(HostLine(m, v) + HostLine(n, w), '\n') == [m + " = " + v, n + " = " + w, ""]
  {
    TwoLines(m + " = " + v, n + " = " + w);
  }

  /** Two lines and the nothing after the last line feed. */
  lemma TwoLines(a: string, b: string)
    requires '\n' !in a && '\n' !in b
    ensures Split(a + "\n" + (b + "\n"), '\n') == [a, b, ""]
  {
    var rest := b + ['\n'] + "";
    assert "\n" == ['\n'] && rest == b + "\n";
    assert a + "\n" + (b + "\n") == a + ['\n'] + rest;
    SplitSeparator(a, '\n', rest);
    SplitSeparator(b, '\n', "");
    SplitAbsent("", '\n');
  }

  /** A public key of 32 bytes, printed in padded base64 as the client sends it, is accepted, and
      the host file carries the same bytes in unpadded base64. */
  lemma KeyReachesHostFile(userip: string, key: seq<Base64.byte>)
    requires |key| == 32 && '\n' !in TrimSpace(userip)
    ensures ValidatePubKey(Base64.EncodeStd(key)).None?
    ensures Variable(BuildTincHost(userip, Base64.EncodeStd(key)), "Ed25519PublicKey") == Some(Base64.EncodeRaw(key))
    ensures Base64.DecodeRaw(Base64.EncodeRaw(key)) == Some(key)
  {
    var raw := Base64.EncodeRaw(key);
    Base64.RoundTrip(key);
    Base64.EncodeRawAlphabet(key);
    hide Base64.EncodeRaw, Base64.DecodeRaw;
    PaddedKey(raw);
    PubKeyAccepted(raw + "=");
    HostFileSays(userip, raw + "=");
  }

  lemma PaddedKey(raw: string)
    requires |raw| == 43 && Base64.AllAlphabet(raw)
    ensures TrimSpace(raw + "=") == raw + "=" && PubKeyPattern(raw + "=")
    ensures TrimEquals(raw + "=") == raw && '\n' !in raw + "="
  {
    var s := raw + "=";
    assert s[..43] == raw && raw[0] in raw && raw[42] in raw;
    TrimSpaceFixes(s);
    assert TrimEquals(raw) == raw;
  }

  // ---------------------------------------------------------------- the transaction

  predicate ValidPeer(conf: Conf, v6: PeerIP.V6Parser) {
    && ValidateTincName(conf.nodename).None?
    && (conf.status ==>
          && TrimSpace(conf.userpublic) != "" && ValidatePubKey(conf.userpublic).None?
          && PeerIP.ValidatePeerIP(conf.userip, v6).None?)
  }

  /** No node name looks like a temporary file. */
  lemma NodeNamesAreNotTemp(name: string)
    requires ValidateTincName(name).None?
    ensures !Temp(name)
  {
    if Temp(name) { TrimKeepsHead(name); }
  }

  lemma TrimKeepsHead(s: string)
    requires s != "" && !IsSpace(s[0])
    ensures TrimSpace(s) != "" ==> TrimSpace(s)[0] == s[0]
  {
    TrimRightPrefix(s);
  }

  class TincHostTx {
    const dir: HostsDir
    const host: string
    /** The failed renames when the update began. */
    ghost const renames: nat
    var backupPath: string
    var hadPrevious: bool
    var committed: bool
    var createdHosts: bool

    constructor (dir: HostsDir, host: string, createdHosts: bool)
      ensures this.dir == dir && this.host == host && this.createdHosts == createdHosts
      ensures renames == dir.faults.renames
      ensures backupPath == "" && !hadPrevious && !committed
    {
      this.dir, this.host, this.createdHosts := dir, host, createdHosts;
      this.renames := dir.faults.renames;
      backupPath, hadPrevious, committed := "", false, false;
    }

    /** The backup holds what the host's file held before. */
    ghost predicate Holds(u: Update)
      reads this, dir
    {
      && dir.Valid() && !committed && host == u.host && !Temp(host) && renames <= dir.faults.renames
      && (hadPrevious <==> host in u.before)
      && (hadPrevious ==> Temp(backupPath) && Look(dir.files, backupPath) == Some(u.before[host]))
      && (!hadPrevious ==> backupPath == "")
    }

    /** The directory shows a state of the update. */
    ghost predicate Shows(u: Update)
      reads this, dir
    {
      Visible(dir.files, u, dir.faults.renames > renames)
    }

    method BackupExisting(ghost u: Update) returns (ok: bool)
      requires dir.Valid() && !committed && u.host == host && !Temp(host) && backupPath == "" && !hadPrevious
      requires renames <= dir.faults.renames && Undone(dir.files, u)
      modifies this`backupPath, this`hadPrevious, dir`files, dir`trace, dir`faults
      ensures dir.Valid() && Undone(dir.files, u)
      ensures old(dir.trace) <= dir.trace && AllUndone(dir.trace, |old(dir.trace)|, u, old(dir.faults.renames))
      ensures old(dir.faults).Upto(dir.faults) && dir.faults.renames == old(dir.faults.renames)
      ensures dir.faults.others == old(dir.faults.others) + if ok then 0 else 1
      ensures ok ==> Holds(u) && (backupPath != "" ==> backupPath !in old(dir.files))
      ensures ok && dir.faults.removals == old(dir.faults.removals) ==> SameTemps(dir.files, old(dir.files), backupPath)
    {
      var name;
      name, ok := dir.CreateTemp("." + host + "-backup-");
      if !ok { return; }
      backupPath := name;
      var content, missing := dir.Read(host);
      if missing {
        var _ := dir.Remove(backupPath);
        backupPath := "";
        return true;
      }
      if content.None? { return false; }
      ok := CopyTo(backupPath, content.value, u);
      if ok { hadPrevious := true; }
    }

    /** Write and sync the backup. */
    method CopyTo(tmp: string, content: string, ghost u: Update) returns (ok: bool)
      requires dir.Valid() && u.host == host && !Temp(host) && Temp(tmp) && tmp in dir.files
      requires Undone(dir.files, u)
      modifies dir`files, dir`trace, dir`faults
      ensures dir.Valid() && Undone(dir.files, u) && tmp in dir.files
      ensures SameTemps(dir.files, old(dir.files), tmp)
      ensures old(dir.trace) <= dir.trace && AllUndone(dir.trace, |old(dir.trace)|, u, old(dir.faults.renames))
      ensures dir.faults == old(dir.faults).Tried(ok)
      ensures ok ==> dir.files[tmp] == content
    {
      ghost var part;
      ok, part := dir.Write(tmp, content);
      if ok { ok := dir.Try(); }
    }

    /** replaceFile with the host's file as destination: by itself an update from what is there to
        the content of the source.  It fails only if both renames fail, or the first one and the
        removal. */
    method ReplaceFile(src: string) returns (ok: bool)
      requires dir.Valid() && !Temp(host) && Temp(src) && src in dir.files
      modifies dir`files, dir`trace, dir`faults
      ensures dir.Valid() && old(dir.trace) <= dir.trace && old(dir.faults).Upto(dir.faults)
      ensures
        var u := Update(host, old(dir.files), Some(old(dir.files)[src]));
        && AllShow(dir.trace, |old(dir.trace)|, u, old(dir.faults.renames))
        && Visible(dir.files, u, dir.faults.renames > old(dir.faults.renames))
        && (ok ==> Applied(dir.files, u))
      ensures SameTemps(dir.files, old(dir.files), src) && (ok ==> src !in dir.files)
      ensures
        var renamed := dir.faults.renames - old(dir.faults.renames);
        var removed := dir.faults.removals - old(dir.faults.removals);
        if ok then renamed <= 1 && removed == 0 else (renamed == 2 && removed == 0) || (renamed == 1 && removed == 1)
    {
      ok := dir.Rename(src, host);
      if ok { return; }
      var removed := dir.Remove(host);
      if removed.RemoveFailed? { return; }
      ok := dir.Rename(src, host);
    }

    method WriteTincHostFile(content: string, ghost u: Update) returns (ok: bool)
      requires Holds(u) && u.after == Some(content)
      requires Undone(dir.files, u)
      modifies dir`files, dir`trace, dir`faults
      ensures Holds(u) && Shows(u)
      ensures old(dir.trace) <= dir.trace && AllShow(dir.trace, |old(dir.trace)|, u, renames)
      ensures old(dir.faults).Upto(dir.faults) && (!ok ==> dir.faults != old(dir.faults))
      ensures ok ==> Applied(dir.files, u)
      ensures dir.faults.removals == old(dir.faults.removals) ==> SameTemps(dir.files, old(dir.files), "")
    {
      var tmp;
      tmp, ok := dir.CreateTemp("." + host + "-");
      if !ok { return; }
      ok := InstallTemp(tmp, content, u);
      var _ := dir.Remove(tmp);
    }

    /** Fill the temporary file, put it in place and sync the directory. */
    method InstallTemp(tmp: string, content: string, ghost u: Update) returns (ok: bool)
      requires Holds(u) && Temp(tmp) && tmp in dir.files && tmp != backupPath && u.after == Some(content)
      requires Undone(dir.files, u)
      modifies dir`files, dir`trace, dir`faults
      ensures Holds(u) && Shows(u)
      ensures old(dir.trace) <= dir.trace && AllShow(dir.trace, |old(dir.trace)|, u, renames)
      ensures SameTemps(dir.files, old(dir.files), tmp)
      ensures old(dir.faults).Upto(dir.faults) && (!ok ==> dir.faults != old(dir.faults))
      ensures ok ==> Applied(dir.files, u) && tmp !in dir.files
    {
      ok := FillTemp(tmp, content, u);
      if ok {
        ghost var filled, past, from := dir.files, dir.trace, dir.faults.renames;
        ok := ReplaceFile(tmp);
        PartShows(dir.trace, |past|, Update(host, filled, Some(content)), from, u, renames);
      }
      if ok { var _ := dir.Try(); }
    }

    /** The middle of beginTincHostUpdate: write the new file, or remove the old one. */
    method ChangeHost(conf: Conf, ghost u: Update) returns (ok: bool)
      requires Holds(u) && Undone(dir.files, u) && u.after == conf.After()
      modifies dir`files, dir`trace, dir`faults
      ensures Holds(u) && Shows(u)
      ensures old(dir.trace) <= dir.trace && AllShow(dir.trace, |old(dir.trace)|, u, renames)
      ensures old(dir.faults).Upto(dir.faults) && (!ok ==> dir.faults != old(dir.faults))
      ensures ok ==> Applied(dir.files, u)
      ensures dir.faults.removals == old(dir.faults.removals) ==> SameTemps(dir.files, old(dir.files), "")
    {
      if conf.status {
        ok := WriteTincHostFile(BuildTincHost(conf.userip, conf.userpublic), u);
      } else {
        var removed := dir.Remove(host);
        ok := !removed.RemoveFailed?;
        if ok { var _ := dir.Try(); }
      }
    }

    /** Write, chmod, sync and close a temporary file. */
    method FillTemp(tmp: string, content: string, ghost u: Update) returns (ok: bool)
      requires dir.Valid() && u.host == host && !Temp(host) && Temp(tmp) && tmp in dir.files
      requires Undone(dir.files, u)
      modifies dir`files, dir`trace, dir`faults
      ensures dir.Valid() && Undone(dir.files, u) && tmp in dir.files
      ensures SameTemps(dir.files, old(dir.files), tmp)
      ensures old(dir.trace) <= dir.trace && AllUndone(dir.trace, |old(dir.trace)|, u, old(dir.faults.renames))
      ensures dir.faults == old(dir.faults).Tried(ok)
      ensures ok ==> dir.files[tmp] == content
    {
      ghost var part;
      ok, part := dir.Write(tmp, content);
      if ok { ok := dir.Try(); }
      if ok { ok := dir.Try(); }
      if ok { ok := dir.Try(); }
    }

    /** The host is restored unless a rename or a removal of the rollback itself fails. */
    method Rollback(ghost u: Update) returns (restored: bool)
      requires Holds(u) && Shows(u)
      modifies dir
      ensures dir.Valid() && Shows(u) && old(dir.faults).Upto(dir.faults)
      ensures old(dir.trace) <= dir.trace && AllShow(dir.trace, |old(dir.trace)|, u, renames)
      ensures dir.rollbacks == old(dir.rollbacks) + [old(dir.faults)]
      ensures restored ==> Undone(dir.files, u)
      ensures !restored ==> old(dir.faults).MovesFailedBy(dir.faults)
      ensures old(dir.present) && !dir.present ==> createdHosts
    {
      dir.rollbacks := dir.rollbacks + [dir.faults];
      if hadPrevious {
        ghost var start, past, from := dir.files, dir.trace, dir.faults.renames;
        restored := ReplaceFile(backupPath);
        PartShows(dir.trace, |past|, Update(host, start, Some(u.before[host])), from, u, renames);
        if restored { var _ := dir.Try(); }
        return;
      }
      var removed := dir.Remove(host);
      if removed.RemoveFailed? { return false; }
      if createdHosts { dir.RemoveDir(); }
      return true;
    }

    method Commit(ghost u: Update)
      requires Holds(u) && Applied(dir.files, u)
      modifies this`committed, dir`files, dir`trace, dir`faults
      ensures committed && dir.Valid() && Applied(dir.files, u)
      ensures old(dir.trace) <= dir.trace && AllShow(dir.trace, |old(dir.trace)|, u, renames)
      ensures old(dir.faults).Upto(dir.faults)
      ensures SameTemps(dir.files, old(dir.files), backupPath)
      ensures dir.faults.removals == old(dir.faults.removals) && backupPath != "" ==> backupPath !in dir.files
    {
      committed := true;
      if backupPath != "" { var _ := dir.Remove(backupPath); }
    }
  }

  // ---------------------------------------------------------------- one update

  /** How a failed update leaves the directory: as it was, or after a rollback of which a rename or
      a removal failed. */
  ghost predicate FailedWell(dir: HostsDir, u: Update, restored: bool, before: seq<Faults>)
    reads dir
  {
    if restored then Undone(dir.files, u)
    else |dir.rollbacks| == |before| + 1 && before <= dir.rollbacks && dir.rollbacks[|before|].MovesFailedBy(dir.faults)
  }

  datatype Result = Ok | Invalid | Canceled | Failed(restored: bool)

  /** os.Stat on the hosts directory, then MkdirAll or the check that it is a directory. */
  method PrepareDir(dir: HostsDir) returns (ok: bool, created: bool)
    requires dir.Valid()
    modifies dir`present, dir`faults
    ensures dir.Valid()
    ensures dir.faults == old(dir.faults).Tried(ok)
    ensures (old(dir.present) ==> dir.present) && (ok ==> dir.present && (created <==> !old(dir.present)))
  {
    ok := dir.Try();
    if !ok { return false, false; }
    if !dir.present {
      ok := dir.MkdirAll();
      return ok, ok;
    }
    ok := dir.Try();
    return ok, false;
  }

  /** beginTincHostUpdate: the new file is in place, or the attempt has been rolled back. */
  method BeginTincHostUpdate(dir: HostsDir, conf: Conf, ghost u: Update)
    returns (r: Result, tx: TincHostTx?)
    requires dir.Valid() && ValidateTincName(conf.nodename).None?
    requires u == Update(conf.nodename, dir.files, conf.After())
    modifies dir
    ensures dir.Valid() && Visible(dir.files, u, dir.faults.renames > old(dir.faults.renames))
    ensures old(dir.trace) <= dir.trace && AllShow(dir.trace, |old(dir.trace)|, u, old(dir.faults.renames))
    ensures old(dir.faults).Upto(dir.faults)
    ensures old(dir.present) ==> dir.present
    ensures r.Ok? ==>
              && tx != null && fresh(tx) && tx.dir == dir && tx.renames == old(dir.faults.renames)
              && tx.Holds(u) && Applied(dir.files, u)
              && (tx.createdHosts ==> !old(dir.present)) && dir.rollbacks == old(dir.rollbacks)
    ensures r.Ok? && dir.faults.removals == old(dir.faults.removals) ==>
              && SameTemps(dir.files, old(dir.files), tx.backupPath)
              && (tx.backupPath != "" ==> tx.backupPath !in old(dir.files))
    ensures !r.Ok? ==> r.Failed? && dir.faults != old(dir.faults) && FailedWell(dir, u, r.restored, old(dir.rollbacks))
  {
    NodeNamesAreNotTemp(conf.nodename);
    tx := null;
    var ok, created := PrepareDir(dir);
    if !ok { return Failed(true), null; }
    tx := new TincHostTx(dir, conf.nodename, created);
    ok := tx.BackupExisting(u);
    if !ok { return Failed(true), null; }
    ok := tx.ChangeHost(conf, u);
    if !ok {
      var restored := tx.Rollback(u);
      return Failed(restored), null;
    }
    r := Ok;
  }

  /** updateTinc with the token held throughout; live says whether the context still runs when the
      token is there, reloaded how the tinc reload turns out.  A failed reload fails the update.
      On success the host's file is exactly the built one, or gone for a removal.  After an error
      it is what it was, unless a rename or removal of the rollback itself failed.  Other hosts are
      never touched, and every state on the way shows the old file, the complete new one or, for a
      removal or after a failed rename of this update, none.  An error means that an operation of
      this update failed.  No temporary file outlives a success unless a removal failed, and a
      directory that was there stays. */
  method UpdateTinc(dir: HostsDir, conf: Conf, networkOk: bool, live: bool, tincReload: bool, reloaded: bool,
                    v6: PeerIP.V6Parser)
    returns (r: Result)
    requires dir.Valid()
    modifies dir
    ensures dir.Valid()
    ensures
      var u := Update(conf.nodename, old(dir.files), conf.After());
      && old(dir.trace) <= dir.trace && AllShow(dir.trace, |old(dir.trace)|, u, old(dir.faults.renames))
      && (old(dir.present) ==> dir.present)
      && (r.Ok? ==> Applied(dir.files, u))
      && (r.Ok? && dir.faults.removals == old(dir.faults.removals) ==> SameTemps(dir.files, old(dir.files), ""))
      && old(dir.faults).Upto(dir.faults) && Visible(dir.files, u, dir.faults.renames > old(dir.faults.renames))
      && (r.Failed? ==> dir.faults != old(dir.faults) && FailedWell(dir, u, r.restored, old(dir.rollbacks)))
    ensures tincReload && !reloaded ==> !r.Ok?
    ensures r.Invalid? <==> !ValidPeer(conf, v6) || !networkOk
    ensures r.Canceled? <==> ValidPeer(conf, v6) && networkOk && !live
    ensures r.Invalid? || r.Canceled? ==> dir.files == old(dir.files) && dir.trace == old(dir.trace)
  {
    ghost var u := Update(conf.nodename, dir.files, conf.After());
    if !ValidPeer(conf, v6) || !networkOk { return Invalid; }
    if !live { return Canceled; }
    var tx;
    r, tx := BeginTincHostUpdate(dir, conf, u);
    if r.Failed? { return; }
    r := FinishUpdate(tx, tincReload, reloaded, u);
  }

  /** The rest of updateTinc: reload, then commit or roll back. */
  method FinishUpdate(tx: TincHostTx, tincReload: bool, reloaded: bool, ghost u: Update) returns (r: Result)
    requires tx.Holds(u) && Applied(tx.dir.files, u)
    modifies tx, tx.dir
    ensures
      var dir := tx.dir;
      && dir.Valid() && old(dir.trace) <= dir.trace && AllShow(dir.trace, |old(dir.trace)|, u, tx.renames)
      && old(dir.faults).Upto(dir.faults)
      && (old(dir.present) && !dir.present ==> old(tx.createdHosts))
    ensures r.Ok? <==> !tincReload || reloaded
    ensures r.Ok? ==>
              && Applied(tx.dir.files, u) && SameTemps(tx.dir.files, old(tx.dir.files), old(tx.backupPath))
              && (tx.dir.faults.removals == old(tx.dir.faults.removals) && old(tx.backupPath) != "" ==>
                    old(tx.backupPath) !in tx.dir.files)
    ensures !r.Ok? ==>
              && r.Failed? && Visible(tx.dir.files, u, tx.dir.faults.renames > tx.renames)
              && tx.dir.faults != old(tx.dir.faults) && FailedWell(tx.dir, u, r.restored, old(tx.dir.rollbacks))
  {
    if tincReload {
      tx.dir.ReloadTinc(reloaded);
      if !reloaded {
        var restored := tx.Rollback(u);
        return Failed(restored);
      }
    }
    tx.Commit(u);
    return Ok;
  }
}
