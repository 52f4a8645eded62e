/** LoadUserStore, the same in tincver/usercfg.go and src/esa/usercfg.go: three maps keep numbers,
    addresses and names unique. */
module UserStore {
  import opened Common
  import opened Text
  import opened Validation
  import PeerIP

  datatype UserCfg = UserCfg(id: nat, username: string, ip: string)

  ghost predicate LineIs(line: string, u: UserCfg, v6: PeerIP.V6Parser) {
    var parts := SplitN(line, ':', 3);
    && |parts| == 3
    && Atoi(TrimSpace(parts[0])) == Some(u.id)
    && TrimSpace(parts[1]) == u.username && ValidateUsername(u.username).None?
    && PeerIP.NormalizePeerIP(TrimSpace(parts[2]), v6) == Some(u.ip)
  }

  /** No two users share a number, an address or a name. */
  ghost predicate Unique(us: seq<UserCfg>) {
    forall i, j | 0 <= i < j < |us| :: us[i].id != us[j].id && us[i].ip != us[j].ip && us[i].username != us[j].username
  }

  ghost predicate FileIs(lines: seq<string>, us: seq<UserCfg>, v6: PeerIP.V6Parser) {
    |lines| == |us| && Unique(us) && forall i | 0 <= i < |lines| :: LineIs(lines[i], us[i], v6)
  }

  function StoreOf(us: seq<UserCfg>): map<string, UserCfg> {
    if us == [] then map[] else
    var n := |us| - 1;
    StoreOf(us[..n])[us[n].username := us[n]]
  }

  function Ids(us: seq<UserCfg>): set<nat> { set u: UserCfg | u in us :: u.id }
  function Ips(us: seq<UserCfg>): set<string> { set u: UserCfg | u in us :: u.ip }
  function Names(us: seq<UserCfg>): set<string> { set u: UserCfg | u in us :: u.username }

  lemma {:induction false} StoreNames(us: seq<UserCfg>)
    ensures StoreOf(us).Keys == Names(us)
    ensures forall n | n in StoreOf(us) :: StoreOf(us)[n] in us && StoreOf(us)[n].username == n
  {
    if us != [] {
      var n := |us| - 1;
      StoreNames(us[..n]);
      assert us == us[..n] + [us[n]];
    }
  }

  /** With distinct names every user is found under its own. */
  lemma StoreFinds(us: seq<UserCfg>, i: nat)
    requires i < |us| && forall j, k | 0 <= j < k < |us| :: us[j].username != us[k].username
    ensures us[i].username in StoreOf(us) && StoreOf(us)[us[i].username] == us[i]
  {
    StoreNames(us);
    assert us[i] in us && us[i].username in Names(us);
    var j :| 0 <= j < |us| && us[j] == StoreOf(us)[us[i].username];
  }

  lemma FileIsOne(lines: seq<string>, a: seq<UserCfg>, b: seq<UserCfg>, v6: PeerIP.V6Parser)
    requires FileIs(lines, a, v6) && FileIs(lines, b, v6)
    ensures a == b
  {
    forall i | 0 <= i < |lines| ensures a[i] == b[i] {
      assert LineIs(lines[i], a[i], v6) && LineIs(lines[i], b[i], v6);
    }
  }

  lemma UniqueAppend(us: seq<UserCfg>, u: UserCfg)
    requires Unique(us)
    ensures Unique(us + [u]) <==> u.id !in Ids(us) && u.ip !in Ips(us) && u.username !in Names(us)
    ensures Ids(us + [u]) == Ids(us) + {u.id} && Ips(us + [u]) == Ips(us) + {u.ip}
    ensures Names(us + [u]) == Names(us) + {u.username}
  {
    var more := us + [u];
    assert more[|us|] == u;
    if Unique(more) {
      forall x: UserCfg | x in us ensures x.id != u.id && x.ip != u.ip && x.username != u.username {
        var i :| 0 <= i < |us| && us[i] == x;
        assert more[i] == x;
      }
    } else {
      var i, j :| 0 <= i < j < |more|
                && (more[i].id == more[j].id || more[i].ip == more[j].ip || more[i].username == more[j].username);
      assert us[i] in us;
    }
  }

  lemma FileIsAppend(lines: seq<string>, us: seq<UserCfg>, line: string, u: UserCfg, v6: PeerIP.V6Parser)
    requires FileIs(lines, us, v6) && LineIs(line, u, v6)
    requires u.id !in Ids(us) && u.ip !in Ips(us) && u.username !in Names(us)
    ensures FileIs(lines + [line], us + [u], v6)
    ensures StoreOf(us + [u]) == StoreOf(us)[u.username := u]
    ensures Ids(us + [u]) == Ids(us) + {u.id} && Ips(us + [u]) == Ips(us) + {u.ip}
  {
    UniqueAppend(us, u);
    hide LineIs;
    assert (us + [u])[..|us|] == us;
  }

  lemma NextLine(lines: seq<string>, n: nat, us: seq<UserCfg>, b: seq<UserCfg>, v6: PeerIP.V6Parser)
    requires n < |lines| && FileIs(lines[..n], us, v6) && FileIs(lines, b, v6)
    ensures LineIs(lines[n], b[n], v6) && b[n].id !in Ids(us) && b[n].ip !in Ips(us) && b[n].username !in Names(us)
  {
    hide LineIs;
    forall i | 0 <= i < n ensures LineIs(lines[..n][i], b[..n][i], v6) {
      assert LineIs(lines[i], b[i], v6);
    }
    FileIsOne(lines[..n], us, b[..n], v6);
    assert b[..n + 1] == us + [b[n]];
    assert Unique(b[..n + 1]);
    UniqueAppend(us, b[n]);
  }

  /** A line that means no user, or one that clashes with an earlier one, spoils the file. */
  lemma FileSpoilt(lines: seq<string>, n: nat, us: seq<UserCfg>, v6: PeerIP.V6Parser)
    requires n < |lines| && FileIs(lines[..n], us, v6)
    requires forall u: UserCfg :: LineIs(lines[n], u, v6) ==>
                                    u.id in Ids(us) || u.ip in Ips(us) || u.username in Names(us)
    ensures forall b: seq<UserCfg> :: !FileIs(lines, b, v6)
  {
    forall b: seq<UserCfg> ensures !FileIs(lines, b, v6) {
      if FileIs(lines, b, v6) { NextLine(lines, n, us, b, v6); }
    }
  }

  /** The checks on one line, in the order of the source. */
  method ReadUser(line: string, v6: PeerIP.V6Parser) returns (r: Option<UserCfg>)
    ensures forall u: UserCfg :: r == Some(u) <==> LineIs(line, u, v6)
  {
    var parts := SplitN(line, ':', 3);
    if |parts| != 3 { return None; }
    var id := Atoi(TrimSpace(parts[0]));
    if id.None? || id.value < 0 { return None; }
    var username := TrimSpace(parts[1]);
    if ValidateUsername(username).Some? { return None; }
    var ip := PeerIP.NormalizePeerIP(TrimSpace(parts[2]), v6);
    if ip.None? { return None; }
    return Some(UserCfg(id.value, username, ip.value));
  }

  lemma NoUsers(v6: PeerIP.V6Parser)
    ensures FileIs([], [], v6) && StoreOf([]) == map[] && Ids([]) == {} && Ips([]) == {} && Kept([]) == []
  {
  }

  method LoadUserStore(text: string, v6: PeerIP.V6Parser) returns (r: Option<map<string, UserCfg>>)
    ensures r.Some? ==> exists us: seq<UserCfg> :: FileIs(Kept(Lines(text)), us, v6) && r.value == StoreOf(us)
    ensures forall us: seq<UserCfg> | FileIs(Kept(Lines(text)), us, v6) :: r == Some(StoreOf(us))
  {
    var lines := Lines(text);
    ghost var kept := Kept(lines);
    NoUsers(v6);
    hide LineIs, Unique, StoreOf, Ids, Ips, Skipped, Lines;
    ghost var us: seq<UserCfg> := [];
    var byName: map<string, UserCfg> := map[];
    var seenIDs: map<nat, nat> := map[];
    var seenIPs: map<string, string> := map[];
    for n := 0 to |lines|
      invariant FileIs(Kept(lines[..n]), us, v6) && byName == StoreOf(us)
      invariant seenIDs.Keys == Ids(us) && seenIPs.Keys == Ips(us)
    {
      StepKept(lines, n);
      StoreNames(us);
      var line := TrimSpace(lines[n]);
      if Skipped(line) { continue; }
      ghost var m := |Kept(lines[..n])|;
      var read := ReadUser(line, v6);
      if read.None? {
        FileSpoilt(kept, m, us, v6);
        return None;
      }
      var u := read.value;
      assert LineIs(line, u, v6);
      if u.id in seenIDs || u.ip in seenIPs || u.username in byName {
        FileSpoilt(kept, m, us, v6);
        return None;
      }
      FileIsAppend(Kept(lines[..n]), us, line, u, v6);
      seenIDs, seenIPs, byName := seenIDs[u.id := n + 1], seenIPs[u.ip := u.username], byName[u.username := u];
      us := us + [u];
    }
    assert lines[..|lines|] == lines;
    r := Some(byName);
    forall b: seq<UserCfg> | FileIs(kept, b, v6) ensures r == Some(StoreOf(b)) {
      FileIsOne(kept, us, b, v6);
    }
  }

  /** Stored addresses tell the users apart. */
  lemma StoredIpsApart(lines: seq<string>, us: seq<UserCfg>, v6: PeerIP.V6Parser, a: string, b: string)
    requires FileIs(lines, us, v6) && a in StoreOf(us) && b in StoreOf(us) && a != b
    ensures StoreOf(us)[a].ip != StoreOf(us)[b].ip && StoreOf(us)[a].id != StoreOf(us)[b].id
  {
    StoreNames(us);
    var i :| 0 <= i < |us| && us[i] == StoreOf(us)[a];
    var j :| 0 <= j < |us| && us[j] == StoreOf(us)[b];
    assert i != j;
    if i < j { assert us[i].ip != us[j].ip; } else { assert us[j].ip != us[i].ip; }
  }
}
