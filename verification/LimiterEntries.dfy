/** The failure count and the time stamps of a limiter entry over whole runs: what recordFailure
    answers, when an entry is swept, and when the table refuses, all in terms of the events. */
module LimiterEntries {
  import opened Common
  import opened TokenBucket
  import opened Limiters

  predicate Touches(e: Event, ip: string) {
    !e.Tick? && e.ip == ip
  }

  /** When the address last did anything. */
  function LastTouch(events: seq<Event>, ip: string): Option<int> {
    if events == [] then None else
    var n := |events| - 1;
    if Touches(events[n], ip) then Some(events[n].now) else LastTouch(events[..n], ip)
  }

  /** Event j clears the failures of the address: a success, or a sweep after the idle time. */
  predicate Clears(events: seq<Event>, j: nat, ip: string, r: Rate)
    requires j < |events|
  {
    match events[j]
    case Succeeded(x, _) => x == ip
    case Tick(now) => LastTouch(events[..j], ip).Some? && LastTouch(events[..j], ip).value < now - r.idle
    case _ => false
  }

  /** The failures of the address that nothing has cleared since. */
  ghost function Open(events: seq<Event>, ip: string, r: Rate): set<nat> {
    set i: nat | i < |events| && events[i].Failed? && events[i].ip == ip
                 && forall j: nat | i < j < |events| :: !Clears(events, j, ip, r)
  }

  /** The table had room whenever the address needed an entry. */
  predicate Served(events: seq<Event>, ip: string, r: Rate, capacity: nat) {
    events == [] ||
    (var n := |events| - 1;
     && Served(events[..n], ip, r, capacity)
     && ((events[n].Requested? || events[n].Failed?) && events[n].ip == ip ==> ip in Run(events, r, capacity).table))
  }

  /** What the entry of an address holds, in terms of the events; no entry means no open failure. */
  ghost predicate Tallies(t: Table, events: seq<Event>, ip: string, r: Rate) {
    if ip in t then LastTouch(events, ip) == Some(t[ip].lastSeen) && t[ip].failCount == |Open(events, ip, r)|
    else Open(events, ip, r) == {}
  }

  lemma ClearsPrefix(events: seq<Event>, j: nat, ip: string, r: Rate)
    requires j < |events| - 1
    ensures Clears(events, j, ip, r) <==> Clears(events[..|events| - 1], j, ip, r)
  {
    assert events[..|events| - 1][..j] == events[..j];
  }

  /** One more event: it clears all, opens one, or changes nothing. */
  lemma OpenStep(events: seq<Event>, ip: string, r: Rate)
    requires events != []
    ensures
      var n := |events| - 1;
      var before, e := Open(events[..n], ip, r), events[n];
      Open(events, ip, r) == if Clears(events, n, ip, r) then {}
                             else if e.Failed? && e.ip == ip then before + {n} else before
    ensures |events| - 1 !in Open(events[..|events| - 1], ip, r)
  {
    var n := |events| - 1;
    var init := events[..n];
    forall j: nat | j < n ensures Clears(events, j, ip, r) <==> Clears(init, j, ip, r) {
      ClearsPrefix(events, j, ip, r);
    }
    hide Clears;
    forall i: nat ensures i in Open(events, ip, r) <==>
                          && i <= n && events[i].Failed? && events[i].ip == ip
                          && (i < n ==> i in Open(init, ip, r) && !Clears(events, n, ip, r))
    {
    }
    if events[n].Failed? { FailureClearsNothing(events, n, ip, r); }
  }

  lemma FailureClearsNothing(events: seq<Event>, j: nat, ip: string, r: Rate)
    requires j < |events| && events[j].Failed?
    ensures !Clears(events, j, ip, r)
  {
  }

  lemma {:induction false} RunTallies(events: seq<Event>, ip: string, r: Rate, capacity: nat)
    requires Served(events, ip, r, capacity)
    ensures Tallies(Run(events, r, capacity).table, events, ip, r)
  {
    if events != [] {
      var n := |events| - 1;
      RunTallies(events[..n], ip, r, capacity);
      OpenStep(events, ip, r);
      StepTallies(events, ip, r, capacity);
    }
  }

  /** What one event does to the entry of an address. */
  ghost predicate EntryMoves(t: Table, t': Table, e: Event, ip: string, r: Rate) {
    match e
    case Tick(now) => (ip in t' <==> ip in t && t[ip].lastSeen >= now - r.idle) && (ip in t' ==> t'[ip] == t[ip])
    case _ =>
      if e.ip != ip then (ip in t' <==> ip in t) && (ip in t ==> t'[ip] == t[ip])
      else if ip !in t' then ip !in t
      else
        var count := if ip in t then t[ip].failCount else 0;
        && t'[ip].lastSeen == e.now
        && t'[ip].failCount == (if e.Failed? then count + 1 else if e.Succeeded? then 0 else count)
  }

  lemma StepMoves(s: State, e: Event, ip: string, r: Rate, capacity: nat)
    ensures EntryMoves(s.table, Step(s, e, r, capacity).table, e, ip, r)
  {
  }

  lemma StepTallies(events: seq<Event>, ip: string, r: Rate, capacity: nat)
    requires events != [] && Tallies(Run(events[..|events| - 1], r, capacity).table, events[..|events| - 1], ip, r)
    requires Served(events, ip, r, capacity)
    ensures Tallies(Run(events, r, capacity).table, events, ip, r)
  {
    var n := |events| - 1;
    var init := events[..n];
    StepMoves(Run(init, r, capacity), events[n], ip, r, capacity);
    OpenStep(events, ip, r);
    hide Open, Step;
    MoveTallies(Run(init, r, capacity).table, Run(events, r, capacity).table, events, ip, r);
  }

  lemma MoveTallies(t: Table, t': Table, events: seq<Event>, ip: string, r: Rate)
    requires events != [] && Tallies(t, events[..|events| - 1], ip, r)
    requires EntryMoves(t, t', events[|events| - 1], ip, r)
    requires
      var e := events[|events| - 1];
      (e.Requested? || e.Failed?) && e.ip == ip ==> ip in t'
    ensures Tallies(t', events, ip, r)
  {
    OpenStep(events, ip, r);
    hide Open;
  }

  /** recordFailure answers with 200 ms for each open failure of the address, this one included, up
      to two seconds. */
  lemma FailureDelays(events: seq<Event>, ip: string, now: int, r: Rate, capacity: nat)
    requires Served(events + [Failed(ip, now)], ip, r, capacity)
    ensures
      var all := events + [Failed(ip, now)];
      var delays := Run(all, r, capacity).delays;
      && delays == Run(events, r, capacity).delays + [Min(|Open(all, ip, r)| * BASE_FAIL_DELAY, MAX_FAIL_DELAY)]
      && |Open(all, ip, r)| == |Open(events, ip, r)| + 1
  {
    var all := events + [Failed(ip, now)];
    assert all[..|events|] == events;
    RunTallies(all, ip, r, capacity);
    OpenStep(all, ip, r);
    FailureClearsNothing(all, |events|, ip, r);
    hide Open, Served;
  }

  /** An entry is swept exactly when its address has done nothing for the idle time. */
  lemma SweptIff(events: seq<Event>, ip: string, now: int, r: Rate, capacity: nat)
    requires Served(events, ip, r, capacity) && ip in Run(events, r, capacity).table
    ensures LastTouch(events, ip).Some?
    ensures ip in Run(events + [Tick(now)], r, capacity).table <==> LastTouch(events, ip).value >= now - r.idle
  {
    assert (events + [Tick(now)])[..|events|] == events;
    RunTallies(events, ip, r, capacity);
  }

  lemma SizeOfStore(t: Table, ip: string, e: Entry)
    ensures |t[ip := e]| == if ip in t then |t| else |t| + 1
  {
    assert t[ip := e].Keys == t.Keys + {ip};
    assert |t[ip := e].Keys| == |t[ip := e]| && |t.Keys| == |t|;
  }

  /** The table never outgrows its capacity. */
  lemma {:induction false} WithinCapacity(events: seq<Event>, r: Rate, capacity: nat)
    ensures |Run(events, r, capacity).table| <= capacity
  {
    if events != [] {
      var n := |events| - 1;
      WithinCapacity(events[..n], r, capacity);
      var t, u := Run(events[..n], r, capacity).table, Run(events, r, capacity).table;
      if events[n].Tick? {
        assert u.Keys <= t.Keys && |u.Keys| == |u| && |t.Keys| == |t|;
        SubsetSize(u.Keys, t.Keys);
      } else if events[n].ip in u {
        SizeOfStore(t, events[n].ip, u[events[n].ip]);
      }
    }
  }

  /** A request meets a full table iff its address has no entry and the table has reached its
      capacity: a known address is always served. */
  lemma TableFullIff(events: seq<Event>, ip: string, now: int, r: Rate, capacity: nat)
    ensures
      var s, t := Run(events, r, capacity), Run(events + [Requested(ip, now)], r, capacity);
      && |t.log| == |s.log| + 1
      && (t.log[|s.log|].outcome == TableFull <==> ip !in s.table && |s.table| == capacity)
      && (t.log[|s.log|].outcome == TableFull ==> t.table == s.table)
  {
    assert (events + [Requested(ip, now)])[..|events|] == events;
    WithinCapacity(events, r, capacity);
  }

  /** A failure the full table has no entry for is answered with the longest delay. */
  lemma UncountedFailure(events: seq<Event>, ip: string, now: int, r: Rate, capacity: nat)
    requires ip !in Run(events, r, capacity).table && |Run(events, r, capacity).table| == capacity
    ensures
      var s, t := Run(events, r, capacity), Run(events + [Failed(ip, now)], r, capacity);
      t.table == s.table && t.delays == s.delays + [MAX_FAIL_DELAY]
  {
    assert (events + [Failed(ip, now)])[..|events|] == events;
  }
}
