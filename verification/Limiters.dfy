/** The limiter table of tincver/http_.go: one bucket per address, created on demand up to a
    capacity and swept after idle time. */
module Limiters {
  import opened Common
  import opened TokenBucket

  const MAX_LIMITER_ENTRIES: nat := 100_000
  const BASE_FAIL_DELAY: int := 200_000_000
  const MAX_FAIL_DELAY: int := 2 * SECOND

  /** ipLimiter; lastFail is None for the zero time. */
  datatype Entry = Entry(tokens: int, last: int, failCount: nat, lastFail: Option<int>, lastSeen: int)

  datatype Outcome = Allow | RateLimited | TableFull

  type Table = map<string, Entry>

  // ---------------------------------------------------------------- the operations as functions

  function NewEntry(now: int, r: Rate): Entry {
    Entry(r.burst, now, 0, None, now)
  }

  /** getLimiter: None when the table is full. */
  function Get(t: Table, ip: string, now: int, r: Rate, capacity: nat): Option<Entry> {
    if ip in t then Some(t[ip]) else if |t| >= capacity then None else Some(NewEntry(now, r))
  }

  function Charge(e: Entry, now: int, r: Rate): (Entry, Outcome) {
    var tokens := Min(r.burst, e.tokens + (now - e.last));
    var seen := e.(last := now, lastSeen := now);
    if tokens < r.cost then (seen.(tokens := tokens), RateLimited) else (seen.(tokens := tokens - r.cost), Allow)
  }

  function AllowRequest(t: Table, ip: string, now: int, r: Rate, capacity: nat): (Table, Outcome) {
    var e := Get(t, ip, now, r, capacity);
    if e.None? then (t, TableFull) else
    var (charged, o) := Charge(e.value, now, r);
    (t[ip := charged], o)
  }

  function RecordFailure(t: Table, ip: string, now: int, r: Rate, capacity: nat): (Table, int) {
    var e := Get(t, ip, now, r, capacity);
    if e.None? then (t, MAX_FAIL_DELAY) else
    var n := e.value.failCount + 1;
    (t[ip := e.value.(failCount := n, lastFail := Some(now), lastSeen := now)],
     Min(n * BASE_FAIL_DELAY, MAX_FAIL_DELAY))
  }

  function RecordSuccess(t: Table, ip: string, now: int): Table {
    if ip in t then t[ip := t[ip].(failCount := 0, lastFail := None, lastSeen := now)] else t
  }

  /** Entries not seen since the cutoff are removed. */
  function Swept(t: Table, cutoff: int): Table {
    map ip | ip in t && t[ip].lastSeen >= cutoff :: t[ip]
  }

  // ---------------------------------------------------------------- the object

  class Limiter {
    const rate: Rate
    const capacity: nat
    var limiters: Table
    var limiterCount: int

    ghost predicate Valid()
      reads this
    {
      limiterCount == |limiters|
    }

    constructor (rate: Rate, capacity: nat)
      ensures Valid() && limiters == map[] && this.rate == rate && this.capacity == capacity
    {
      this.rate := rate;
      this.capacity := capacity;
      limiters := map[];
      limiterCount := 0;
    }

    method GetLimiter(ip: string, now: int) returns (ok: bool)
      requires Valid()
      modifies this
      ensures Valid()
      ensures var e := Get(old(limiters), ip, now, rate, capacity);
        ok == e.Some? && limiters == if ok then old(limiters)[ip := e.value] else old(limiters)
    {
      if ip in limiters {
        return true;
      }
      if limiterCount >= capacity {
        return false;
      }
      limiters := limiters[ip := NewEntry(now, rate)];
      limiterCount := limiterCount + 1;
      return true;
    }

    method Request(ip: string, now: int) returns (outcome: Outcome)
      requires Valid()
      modifies this
      ensures Valid()
      ensures (limiters, outcome) == AllowRequest(old(limiters), ip, now, rate, capacity)
    {
      var ok := GetLimiter(ip, now);
      if !ok {
        return TableFull;
      }
      var lim := limiters[ip];
      var tokens := lim.tokens + (now - lim.last);
      if tokens > rate.burst {
        tokens := rate.burst;
      }
      lim := lim.(last := now, lastSeen := now);
      if tokens < rate.cost {
        limiters := limiters[ip := lim.(tokens := tokens)];
        assert limiters == old(limiters)[ip := lim.(tokens := tokens)];
        return RateLimited;
      }
      limiters := limiters[ip := lim.(tokens := tokens - rate.cost)];
      assert limiters == old(limiters)[ip := lim.(tokens := tokens - rate.cost)];
      return Allow;
    }

    method Failure(ip: string, now: int) returns (delay: int)
      requires Valid()
      modifies this
      ensures Valid()
      ensures (limiters, delay) == RecordFailure(old(limiters), ip, now, rate, capacity)
    {
      var ok := GetLimiter(ip, now);
      if !ok {
        return MAX_FAIL_DELAY;
      }
      var lim := limiters[ip];
      lim := lim.(failCount := lim.failCount + 1, lastFail := Some(now), lastSeen := now);
      limiters := limiters[ip := lim];
      assert limiters == old(limiters)[ip := lim];
      delay := lim.failCount * BASE_FAIL_DELAY;
      if delay > MAX_FAIL_DELAY {
        delay := MAX_FAIL_DELAY;
      }
    }

    method Success(ip: string, now: int)
      requires Valid()
      modifies this
      ensures Valid() && limiters == RecordSuccess(old(limiters), ip, now)
    {
      if ip in limiters {
        limiters := limiters[ip := limiters[ip].(failCount := 0, lastFail := None, lastSeen := now)];
      }
    }

    /** One tick of StartLimiterCleanup. */
    method Sweep(now: int)
      requires Valid()
      modifies this
      ensures Valid() && limiters == Swept(old(limiters), now - rate.idle)
    {
      var cutoff := now - rate.idle;
      var todo := limiters.Keys;
      ghost var before := limiters;
      while todo != {}
        invariant todo <= before.Keys && Valid()
        invariant limiters == map ip | ip in before && (ip in todo || before[ip].lastSeen >= cutoff) :: before[ip]
        decreases todo
      {
        var ip :| ip in todo;
        if limiters[ip].lastSeen < cutoff {
          assert (limiters - {ip}).Keys == limiters.Keys - {ip};
          assert |limiters.Keys - {ip}| == |limiters.Keys| - 1;
          limiters := limiters - {ip};
          limiterCount := limiterCount - 1;
        }
        todo := todo - {ip};
      }
    }
  }

  // ---------------------------------------------------------------- whole runs

  datatype Event =
    | Requested(ip: string, now: int)
    | Failed(ip: string, now: int)
    | Succeeded(ip: string, now: int)
    | Tick(now: int)

  datatype Decision = Decision(ip: string, now: int, outcome: Outcome)

  /** delays logs what recordFailure returned. */
  datatype State = State(table: Table, log: seq<Decision>, delays: seq<int>)

  function Step(s: State, e: Event, r: Rate, capacity: nat): State {
    match e
    case Requested(ip, now) =>
      var (t, o) := AllowRequest(s.table, ip, now, r, capacity);
      s.(table := t, log := s.log + [Decision(ip, now, o)])
    case Failed(ip, now) =>
      var (t, delay) := RecordFailure(s.table, ip, now, r, capacity);
      s.(table := t, delays := s.delays + [delay])
    case Succeeded(ip, now) => s.(table := RecordSuccess(s.table, ip, now))
    case Tick(now) => s.(table := Swept(s.table, now - r.idle))
  }

  function Run(events: seq<Event>, r: Rate, capacity: nat): State {
    if events == [] then State(map[], [], []) else
    Step(Run(events[..|events| - 1], r, capacity), events[|events| - 1], r, capacity)
  }

  predicate InOrder(events: seq<Event>) {
    forall i, j | 0 <= i < j < |events| :: events[i].now <= events[j].now
  }

  /** The decisions about one address, and their times. */
  function Of(log: seq<Decision>, ip: string): seq<Decision> {
    if log == [] then [] else
    var init, d := Of(log[..|log| - 1], ip), log[|log| - 1];
    if d.ip == ip then init + [d] else init
  }

  function Times(ds: seq<Decision>): seq<int> {
    seq(|ds|, i requires 0 <= i < |ds| => ds[i].now)
  }

  predicate NeverFull(ds: seq<Decision>) {
    forall d | d in ds :: d.outcome != TableFull
  }

  /** The level an address would find now; an absent entry is as good as a full one. */
  function LevelOf(t: Table, ip: string, now: int, r: Rate): int {
    if ip in t then Min(r.burst, t[ip].tokens + now - t[ip].last) else r.burst
  }

  ghost predicate EntriesSound(t: Table, clock: int, r: Rate) {
    forall ip | ip in t :: t[ip].last <= t[ip].lastSeen <= clock && 0 <= t[ip].tokens <= r.burst
  }

  /** The table's level for the address is the level of its own pure bucket, and so far its
      decisions were the bucket's. */
  ghost predicate Tracks(s: State, ip: string, clock: int, r: Rate) {
    Follows(Of(s.log, ip), LevelOf(s.table, ip, clock, r), clock, r)
  }

  ghost predicate Follows(ds: seq<Decision>, level: int, clock: int, r: Rate) {
    var ts := Times(ds);
    && Ordered(ts) && (ts != [] ==> ts[|ts| - 1] <= clock)
    && (NeverFull(ds) ==>
         && level == Level(ts, clock, r)
         && forall j: nat | j < |ds| :: ds[j].outcome.Allow? <==> Allowed(ts, j, r))
  }

  lemma LevelWaits(t: Table, ip: string, clock: int, now: int, r: Rate)
    requires clock <= now && EntriesSound(t, clock, r)
    ensures LevelOf(t, ip, now, r) == Min(r.burst, LevelOf(t, ip, clock, r) + now - clock)
  {
  }

  lemma TracksLater(s: State, ip: string, clock: int, now: int, r: Rate)
    requires Tracks(s, ip, clock, r) && EntriesSound(s.table, clock, r) && clock <= now
    ensures Tracks(s, ip, now, r) && EntriesSound(s.table, now, r)
  {
    LevelWaits(s.table, ip, clock, now, r);
    LevelLater(Times(Of(s.log, ip)), clock, now, r);
  }

  /** A sweep leaves every level alone: idle entries are full again. */
  lemma SweepKeepsLevel(t: Table, ip: string, now: int, r: Rate)
    requires r.Valid() && EntriesSound(t, now, r)
    ensures LevelOf(Swept(t, now - r.idle), ip, now, r) == LevelOf(t, ip, now, r)
    ensures EntriesSound(Swept(t, now - r.idle), now, r)
  {
  }

  lemma ChargeLevel(t: Table, ip: string, now: int, r: Rate, capacity: nat)
    requires r.Valid() && EntriesSound(t, now, r)
    ensures
      var (u, o), level := AllowRequest(t, ip, now, r, capacity), LevelOf(t, ip, now, r);
      o != TableFull ==>
        && (o == Allow <==> level >= r.cost)
        && LevelOf(u, ip, now, r) == if level < r.cost then level else level - r.cost
  {
  }

  lemma AllowTracks(s: State, ip: string, now: int, r: Rate, capacity: nat)
    requires r.Valid() && Tracks(s, ip, now, r) && EntriesSound(s.table, now, r)
    ensures Tracks(Step(s, Requested(ip, now), r, capacity), ip, now, r)
  {
    var t := Step(s, Requested(ip, now), r, capacity);
    var d := t.log[|s.log|];
    assert t.log[..|s.log|] == s.log;
    assert Of(t.log, ip) == Of(s.log, ip) + [d];
    ChargeLevel(s.table, ip, now, r, capacity);
    FollowsAppend(Of(s.log, ip), LevelOf(s.table, ip, now, r), d, LevelOf(t.table, ip, now, r), r);
  }

  lemma FollowsAppend(ds: seq<Decision>, level: int, d: Decision, left: int, r: Rate)
    requires r.Valid() && Follows(ds, level, d.now, r)
    requires d.outcome != TableFull ==>
               (d.outcome == Allow <==> level >= r.cost) && left == if level < r.cost then level else level - r.cost
    ensures Follows(ds + [d], left, d.now, r)
  {
    assert Times(ds + [d]) == Times(ds) + [d.now];
    NeverFullAppend(ds, d);
    if NeverFull(ds + [d]) {
      LastRequest(Times(ds), d.now, r);
      AllowedAppend(ds, d, r);
    }
  }

  lemma LastRequest(ts: seq<int>, now: int, r: Rate)
    requires r.Valid()
    ensures var level := Level(ts, now, r);
      && (Allowed(ts + [now], |ts|, r) <==> level >= r.cost)
      && Level(ts + [now], now, r) == if level < r.cost then level else level - r.cost
  {
    var us := ts + [now];
    assert us[..|ts|] == ts;
    assert Left(us, r) <= r.burst;
  }

  lemma NeverFullAppend(ds: seq<Decision>, d: Decision)
    ensures NeverFull(ds + [d]) ==> NeverFull(ds) && d.outcome != TableFull
  {
    if NeverFull(ds + [d]) {
      assert d in ds + [d];
      assert forall x | x in ds :: x in ds + [d];
    }
  }

  lemma AllowedAppend(ds: seq<Decision>, d: Decision, r: Rate)
    requires forall j: nat | j < |ds| :: ds[j].outcome.Allow? <==> Allowed(Times(ds), j, r)
    requires d.outcome.Allow? <==> Allowed(Times(ds) + [d.now], |ds|, r)
    ensures forall j: nat | j < |ds| + 1 :: (ds + [d])[j].outcome.Allow? <==> Allowed(Times(ds) + [d.now], j, r)
  {
    var ts := Times(ds);
    forall j: nat | j < |ds| + 1 ensures (ds + [d])[j].outcome.Allow? <==> Allowed(ts + [d.now], j, r) {
      if j < |ds| { assert (ts + [d.now])[..j] == ts[..j]; }
    }
  }

  lemma OtherTracks(s: State, e: Event, ip: string, r: Rate, capacity: nat)
    requires r.Valid() && Tracks(s, ip, e.now, r) && EntriesSound(s.table, e.now, r)
    requires !(e.Requested? && e.ip == ip)
    ensures Tracks(Step(s, e, r, capacity), ip, e.now, r)
  {
    var t := Step(s, e, r, capacity);
    if e.Requested? {
      assert t.log[..|s.log|] == s.log;
      assert Of(t.log, ip) == Of(s.log, ip);
    }
    if e.Tick? { SweepKeepsLevel(s.table, ip, e.now, r); }
    assert LevelOf(t.table, ip, e.now, r) == LevelOf(s.table, ip, e.now, r);
  }

  lemma StepSound(s: State, e: Event, r: Rate, capacity: nat)
    requires r.Valid() && EntriesSound(s.table, e.now, r)
    ensures EntriesSound(Step(s, e, r, capacity).table, e.now, r)
  {
  }

  lemma {:induction false} RunTracks(events: seq<Event>, ip: string, r: Rate, capacity: nat, clock: int)
    requires r.Valid() && InOrder(events) && (events != [] ==> events[|events| - 1].now == clock)
    ensures Tracks(Run(events, r, capacity), ip, clock, r) && EntriesSound(Run(events, r, capacity).table, clock, r)
  {
    if events != [] {
      var n := |events| - 1;
      var s, e := Run(events[..n], r, capacity), events[n];
      var before := if n == 0 then clock else events[n - 1].now;
      RunTracks(events[..n], ip, r, capacity, before);
      TracksLater(s, ip, before, clock, r);
      StepSound(s, e, r, capacity);
      if e.Requested? && e.ip == ip {
        AllowTracks(s, ip, clock, r, capacity);
      } else {
        OtherTracks(s, e, ip, r, capacity);
      }
    }
  }

  /** In every clock-ordered run, with any sweeps, failures and traffic of other addresses, an
      address that never met a full table is refused exactly when its own requests overdraw some
      window. */
  lemma DecisionsExact(events: seq<Event>, ip: string, r: Rate, capacity: nat, j: nat)
    requires r.Valid() && InOrder(events)
    requires var ds := Of(Run(events, r, capacity).log, ip); j < |ds| && NeverFull(ds)
    ensures
      var ds := Of(Run(events, r, capacity).log, ip);
      var ts := Times(ds);
      ds[j].outcome == RateLimited <==> exists i: nat :: i <= j && Overdrawn(ts, i, j, r)
  {
    var ds := Of(Run(events, r, capacity).log, ip);
    RunTracks(events, ip, r, capacity, if events == [] then 0 else events[|events| - 1].now);
    RefusedIff(Times(ds), j, r);
    assert ds[j] in ds;
  }

  function WithoutSweeps(events: seq<Event>): seq<Event> {
    if events == [] then [] else
    var init, e := WithoutSweeps(events[..|events| - 1]), events[|events| - 1];
    if e.Tick? then init else init + [e]
  }

  lemma {:induction false} WithoutSweepsInOrder(events: seq<Event>)
    requires InOrder(events)
    ensures InOrder(WithoutSweeps(events))
    ensures forall e | e in WithoutSweeps(events) :: events != [] && e.now <= events[|events| - 1].now
  {
    if events != [] {
      WithoutSweepsInOrder(events[..|events| - 1]);
      var init := WithoutSweeps(events[..|events| - 1]);
      forall i | 0 <= i < |init| ensures init[i].now <= events[|events| - 1].now {
        assert init[i] in init;
      }
    }
  }

  lemma {:induction false} SameTimes(events: seq<Event>, ip: string, r: Rate, capacity: nat, big: nat)
    ensures Times(Of(Run(events, r, capacity).log, ip)) == Times(Of(Run(WithoutSweeps(events), r, big).log, ip))
  {
    if events != [] {
      var n := |events| - 1;
      var e := events[n];
      SameTimes(events[..n], ip, r, capacity, big);
      var w := WithoutSweeps(events);
      var s, t := Run(events[..n], r, capacity), Run(events, r, capacity);
      if !e.Tick? {
        assert w[..|w| - 1] == WithoutSweeps(events[..n]);
        var u, v := Run(WithoutSweeps(events[..n]), r, big), Run(w, r, big);
        if e.Requested? {
          LogAppend(s.log, t.log[|s.log|], ip);
          LogAppend(u.log, v.log[|u.log|], ip);
        }
      }
    }
  }

  lemma LogAppend(log: seq<Decision>, d: Decision, ip: string)
    ensures Of(log + [d], ip) == if d.ip == ip then Of(log, ip) + [d] else Of(log, ip)
    ensures Times(Of(log + [d], ip)) == if d.ip == ip then Times(Of(log, ip)) + [d.now] else Times(Of(log, ip))
  {
    assert (log + [d])[..|log|] == log;
  }

  lemma StoreSize(t: Table, ip: string, e: Entry)
    ensures |t[ip := e]| <= |t| + 1
  {
    assert t[ip := e].Keys == t.Keys + {ip};
    assert |t.Keys| == |t| && |t[ip := e].Keys| == |t[ip := e]|;
  }

  /** A table with room for every event never refuses for lack of room. */
  lemma {:induction false} RoomyNeverFull(events: seq<Event>, r: Rate, capacity: nat)
    requires |events| < capacity && forall e | e in events :: !e.Tick?
    ensures |Run(events, r, capacity).table| <= |events| && NeverFull(Run(events, r, capacity).log)
  {
    if events != [] {
      var n := |events| - 1;
      RoomyNeverFull(events[..n], r, capacity);
      var s, e := Run(events[..n], r, capacity), events[n];
      assert e in events;
      var t := Step(s, e, r, capacity);
      StoreSize(s.table, e.ip, if e.ip in t.table then t.table[e.ip] else NewEntry(0, r));
      if e.Succeeded? && e.ip in s.table {
        assert t.table.Keys == s.table.Keys;
        assert |t.table.Keys| == |s.table.Keys|;
      }
    }
  }

  lemma {:induction false} WithoutSweepsSize(events: seq<Event>)
    ensures |WithoutSweeps(events)| <= |events| && forall e | e in WithoutSweeps(events) :: !e.Tick?
  {
    if events != [] { WithoutSweepsSize(events[..|events| - 1]); }
  }

  /** Eviction is invisible: an address that met no full table gets, request by request, the
      decisions of an unbounded table that never sweeps. */
  lemma EvictionIsInvisible(events: seq<Event>, ip: string, r: Rate, capacity: nat)
    requires r.Valid() && InOrder(events)
    requires NeverFull(Of(Run(events, r, capacity).log, ip))
    ensures Of(Run(events, r, capacity).log, ip) == Of(Run(WithoutSweeps(events), r, |events| + 1).log, ip)
  {
    var w, big := WithoutSweeps(events), |events| + 1;
    var ds, es := Of(Run(events, r, capacity).log, ip), Of(Run(w, r, big).log, ip);
    WithoutSweepsInOrder(events);
    WithoutSweepsSize(events);
    RoomyNeverFull(w, r, big);
    OfIsOf(Run(events, r, capacity).log, ip);
    OfIsOf(Run(w, r, big).log, ip);
    RunTracks(events, ip, r, capacity, if events == [] then 0 else events[|events| - 1].now);
    RunTracks(w, ip, r, big, if w == [] then 0 else w[|w| - 1].now);
    SameTimes(events, ip, r, capacity, big);
    assert |ds| == |Times(ds)| && |es| == |Times(es)|;
    hide Run, WithoutSweeps, LevelOf, Level;
    forall j | 0 <= j < |ds| ensures ds[j] == es[j] {
      assert ds[j] in ds && es[j] in es;
      assert ds[j].now == Times(ds)[j] == Times(es)[j] == es[j].now;
    }
  }

  lemma {:induction false} OfIsOf(log: seq<Decision>, ip: string)
    ensures forall d | d in Of(log, ip) :: d.ip == ip && d in log
  {
    if log != [] { OfIsOf(log[..|log| - 1], ip); }
  }
}
