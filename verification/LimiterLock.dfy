/** Double-checked creation of limiter entries in getLimiter of tincver/http_.go, interleaved
    with other callers and with the sweep of StartLimiterCleanup.  Every access to the shared
    table, the counter and the mutex is a step of its own. */
module LimiterLock {
  import opened Common

  /** Where a goroutine stands.  An entry is named by the number of its allocation. */
  datatype PC =
    | Idle
    // getLimiter
    | FastLoad(ip: string)
    | Acquire(ip: string)
    | SecondLoad(ip: string)
    | ReadCount(ip: string)
    | Store(ip: string)
    | Increment(ip: string, id: nat)
    | Release(ip: string, result: Option<nat>)
    | Returned(ip: string, result: Option<nat>)
    // the sweep
    | SweepAcquire
    | SweepRange(todo: set<string>)
    | Decrement(todo: set<string>)
    | SweepRelease
  {
    /** Between Lock and Unlock of limiterMu. */
    predicate HoldsLock() {
      SecondLoad? || ReadCount? || Store? || Increment? || Release? || SweepRange? || Decrement? || SweepRelease?
    }

    /** The entry this caller was handed. */
    function Handed(): Option<nat> {
      if Increment? then Some(id) else if Release? || Returned? then result else None
    }
  }

  /** removed collects the entries deleted by sweeps; it and `next` are history variables. */
  datatype State = State(table: map<string, nat>, count: int, mutex: Option<nat>, pc: map<nat, PC>,
                         next: nat, removed: set<nat>)
  {
    function At(t: nat): PC { if t in pc then pc[t] else Idle }
    function Go(t: nat, p: PC): State { this.(pc := pc[t := p]) }
  }

  ghost predicate Init(s: State) {
    s.table == map[] && s.count == 0 && s.mutex == None && s.pc == map[] && s.next == 0 && s.removed == {}
  }

  /** One atomic step of goroutine t. */
  ghost predicate Step(s: State, t: nat, s': State, capacity: nat) {
    match s.At(t)
    case Idle => (exists ip :: s' == s.Go(t, FastLoad(ip))) || s' == s.Go(t, SweepAcquire)
    case FastLoad(ip) => s' == s.Go(t, if ip in s.table then Returned(ip, Some(s.table[ip])) else Acquire(ip))
    case Acquire(ip) => s.mutex == None && s' == s.Go(t, SecondLoad(ip)).(mutex := Some(t))
    case SecondLoad(ip) => s' == s.Go(t, if ip in s.table then Release(ip, Some(s.table[ip])) else ReadCount(ip))
    case ReadCount(ip) => s' == s.Go(t, if s.count >= capacity then Release(ip, None) else Store(ip))
    case Store(ip) => s' == s.Go(t, Increment(ip, s.next)).(table := s.table[ip := s.next], next := s.next + 1)
    case Increment(ip, id) => s' == s.Go(t, Release(ip, Some(id))).(count := s.count + 1)
    case Release(ip, result) => s' == s.Go(t, Returned(ip, result)).(mutex := None)
    case Returned(_, _) => s' == s.Go(t, Idle)
    case SweepAcquire => s.mutex == None && s' == s.Go(t, SweepRange(s.table.Keys)).(mutex := Some(t))
    case SweepRange(todo) =>
      if todo == {} then s' == s.Go(t, SweepRelease)
      else exists ip :: ip in todo && SweepVisit(s, t, s', ip, todo - {ip})
    case Decrement(todo) => s' == s.Go(t, SweepRange(todo)).(count := s.count - 1)
    case SweepRelease => s' == s.Go(t, Idle).(mutex := None)
  }

  /** Range shows one entry: fresh ones stay, stale ones are deleted; which is which is left open. */
  ghost predicate SweepVisit(s: State, t: nat, s': State, ip: string, rest: set<string>) {
    || s' == s.Go(t, SweepRange(rest))
    || (ip in s.table && s' == s.Go(t, Decrement(rest)).(table := s.table - {ip}, removed := s.removed + {s.table[ip]}))
  }

  /** The counter is off by one exactly while the lock holder is between its two updates. */
  function Drift(s: State): int {
    if s.mutex == None then 0 else
    var p := s.At(s.mutex.value);
    if p.Increment? then -1 else if p.Decrement? then 1 else 0
  }

  /** One goroutine at a time is between Lock and Unlock. */
  ghost predicate Exclusive(s: State) {
    && (forall t | t in s.pc && s.pc[t].HoldsLock() :: s.mutex == Some(t))
    && (s.mutex.Some? ==> s.At(s.mutex.value).HoldsLock())
  }

  ghost predicate Counted(s: State, capacity: nat) {
    s.count == |s.table| + Drift(s) && |s.table| <= capacity && s.count <= capacity
  }

  /** What the lock holder has seen under the lock still holds. */
  ghost predicate Knows(s: State, p: PC, capacity: nat) {
    && (p.ReadCount? || p.Store? ==> p.ip !in s.table)
    && (p.Store? ==> s.count < capacity)
    && (p.SweepRange? || p.Decrement? ==> p.todo <= s.table.Keys)
  }

  /** A handed-out entry is the live one of its address, or a sweep has removed it. */
  ghost predicate Current(s: State, p: PC) {
    match p.Handed()
    case None => true
    case Some(id) => (p.ip in s.table && s.table[p.ip] == id) || id in s.removed
  }

  ghost predicate Entries(s: State) {
    && (forall ip | ip in s.table :: s.table[ip] < s.next && s.table[ip] !in s.removed)
    && (forall a, b | a in s.table && b in s.table && s.table[a] == s.table[b] :: a == b)
    && (forall id | id in s.removed :: id < s.next)
  }

  ghost predicate Inv(s: State, capacity: nat) {
    && Exclusive(s) && Counted(s, capacity) && Entries(s)
    && forall t | t in s.pc :: Knows(s, s.pc[t], capacity) && Current(s, s.pc[t])
  }

  lemma TableSize(m: map<string, nat>, ip: string, id: nat)
    ensures ip !in m ==> |m[ip := id]| == |m| + 1
    ensures ip in m ==> |m - {ip}| == |m| - 1
  {
    assert m[ip := id].Keys == m.Keys + {ip} && |m.Keys| == |m| && |m[ip := id].Keys| == |m[ip := id]|;
    assert (m - {ip}).Keys == m.Keys - {ip} && |(m - {ip}).Keys| == |m - {ip}|;
  }

  /** A step that leaves the table, the counter and the mutex alone. */
  lemma LocalStep(s: State, t: nat, s': State, p: PC, capacity: nat)
    requires Inv(s, capacity) && s' == s.Go(t, p)
    requires p.HoldsLock() == s.At(t).HoldsLock()
    requires !(s.At(t).Increment? || s.At(t).Decrement? || p.Increment? || p.Decrement?)
    requires Knows(s, p, capacity) && Current(s, p)
    ensures Inv(s', capacity)
  {
    assert Counted(s', capacity) && Entries(s') && Exclusive(s');
    forall u | u in s'.pc ensures Knows(s', s'.pc[u], capacity) && Current(s', s'.pc[u]) {
      assert s'.pc[u] == if u == t then p else s.pc[u];
    }
  }

  /** Lock. */
  lemma LockStep(s: State, t: nat, s': State, p: PC, capacity: nat)
    requires Inv(s, capacity) && s.mutex == None && s' == s.Go(t, p).(mutex := Some(t))
    requires p.SecondLoad? || (p.SweepRange? && p.todo == s.table.Keys)
    ensures Inv(s', capacity)
  {
    assert Counted(s', capacity) && Entries(s') && Exclusive(s');
    forall u | u in s'.pc ensures Knows(s', s'.pc[u], capacity) && Current(s', s'.pc[u]) {
      assert s'.pc[u] == if u == t then p else s.pc[u];
    }
  }

  /** Unlock. */
  lemma UnlockStep(s: State, t: nat, s': State, p: PC, capacity: nat)
    requires Inv(s, capacity) && s' == s.Go(t, p).(mutex := None)
    requires s.At(t).Release? || s.At(t).SweepRelease?
    requires p.Idle? || (p.Returned? && s.At(t).Release? && p.ip == s.At(t).ip && p.result == s.At(t).result)
    ensures Inv(s', capacity)
  {
    assert Counted(s', capacity) && Entries(s') && Exclusive(s');
    forall u | u in s'.pc ensures Knows(s', s'.pc[u], capacity) && Current(s', s'.pc[u]) {
      assert s'.pc[u] == if u == t then p else s.pc[u];
    }
  }

  lemma StoreStep(s: State, t: nat, s': State, capacity: nat)
    requires Inv(s, capacity) && s.At(t).Store? && Step(s, t, s', capacity)
    ensures Inv(s', capacity)
  {
    var ip := s.At(t).ip;
    TableSize(s.table, ip, s.next);
    assert Counted(s', capacity) && Entries(s') && Exclusive(s');
    forall u | u in s'.pc ensures Knows(s', s'.pc[u], capacity) && Current(s', s'.pc[u]) {
      assert s'.pc[u] == if u == t then Increment(ip, s.next) else s.pc[u];
    }
  }

  /** A counter update: it undoes the drift of the table update just before it. */
  lemma CountStep(s: State, t: nat, s': State, capacity: nat)
    requires Inv(s, capacity) && (s.At(t).Increment? || s.At(t).Decrement?) && Step(s, t, s', capacity)
    ensures Inv(s', capacity)
  {
    assert Counted(s', capacity) && Entries(s') && Exclusive(s');
    forall u | u in s'.pc ensures Knows(s', s'.pc[u], capacity) && Current(s', s'.pc[u]) {
      assert u == t || s'.pc[u] == s.pc[u];
    }
  }

  lemma DeleteStep(s: State, t: nat, s': State, ip: string, rest: set<string>, capacity: nat)
    requires Inv(s, capacity) && s.At(t).SweepRange? && ip in s.table && rest == s.At(t).todo - {ip}
    requires s' == s.Go(t, Decrement(rest)).(table := s.table - {ip}, removed := s.removed + {s.table[ip]})
    ensures Inv(s', capacity)
  {
    TableSize(s.table, ip, 0);
    assert Counted(s', capacity) && Entries(s') && Exclusive(s');
    forall u | u in s'.pc ensures Knows(s', s'.pc[u], capacity) && Current(s', s'.pc[u]) {
      assert s'.pc[u] == if u == t then Decrement(rest) else s.pc[u];
    }
  }

  /** The steps that only move the caller on. */
  lemma QuietStep(s: State, t: nat, s': State, capacity: nat)
    requires Inv(s, capacity) && Step(s, t, s', capacity)
    requires var p := s.At(t); p.Idle? || p.FastLoad? || p.SecondLoad? || p.ReadCount? || p.Returned?
    ensures Inv(s', capacity)
  {
    assert exists p :: s' == s.Go(t, p);
    var p :| s' == s.Go(t, p);
    assert s'.pc[t] == p && s'.At(t) == p;
    assert Knows(s, s.At(t), capacity) && Current(s, s.At(t));
    hide Inv;
    LocalStep(s, t, s', p, capacity);
  }

  lemma SweepStep(s: State, t: nat, s': State, capacity: nat)
    requires Inv(s, capacity) && Step(s, t, s', capacity) && s.At(t).SweepRange?
    ensures Inv(s', capacity)
  {
    var todo := s.At(t).todo;
    if todo == {} {
      LocalStep(s, t, s', SweepRelease, capacity);
    } else {
      var ip :| ip in todo && SweepVisit(s, t, s', ip, todo - {ip});
      if s' == s.Go(t, SweepRange(todo - {ip})) {
        LocalStep(s, t, s', SweepRange(todo - {ip}), capacity);
      } else {
        DeleteStep(s, t, s', ip, todo - {ip}, capacity);
      }
    }
  }

  lemma StepKeepsInv(s: State, t: nat, s': State, capacity: nat)
    requires Inv(s, capacity) && Step(s, t, s', capacity)
    ensures Inv(s', capacity)
  {
    hide Inv;
    match s.At(t)
    case Acquire(ip) => LockStep(s, t, s', SecondLoad(ip), capacity);
    case SweepAcquire => LockStep(s, t, s', SweepRange(s.table.Keys), capacity);
    case Release(ip, result) => UnlockStep(s, t, s', Returned(ip, result), capacity);
    case SweepRelease => UnlockStep(s, t, s', Idle, capacity);
    case Store(_) => StoreStep(s, t, s', capacity);
    case Increment(_, _) => CountStep(s, t, s', capacity);
    case Decrement(_) => CountStep(s, t, s', capacity);
    case SweepRange(_) => SweepStep(s, t, s', capacity);
    case _ => QuietStep(s, t, s', capacity);
  }

  ghost predicate IsRun(trace: seq<State>, threads: seq<nat>, capacity: nat) {
    && |trace| == |threads| + 1
    && Init(trace[0])
    && forall i | 0 <= i < |threads| :: Step(trace[i], threads[i], trace[i + 1], capacity)
  }

  lemma {:induction false} RunKeepsInv(trace: seq<State>, threads: seq<nat>, capacity: nat)
    requires IsRun(trace, threads, capacity)
    ensures Inv(trace[|threads|], capacity)
  {
    if threads != [] {
      var n := |threads| - 1;
      RunKeepsInv(trace[..n + 1], threads[..n], capacity);
      StepKeepsInv(trace[n], threads[n], trace[n + 1], capacity);
    }
  }

  /** In every reachable state: whenever the mutex is free the counter equals the table size, and
      neither ever exceeds the capacity. */
  lemma CountIsTableSize(trace: seq<State>, threads: seq<nat>, capacity: nat)
    requires IsRun(trace, threads, capacity)
    ensures var s := trace[|threads|];
      (s.mutex == None ==> s.count == |s.table|) && |s.table| <= capacity && s.count <= capacity
  {
    RunKeepsInv(trace, threads, capacity);
  }

  /** Two callers that were handed entries for one address hold the same entry, unless a sweep
      removed one of them: there is at most one live entry per address. */
  lemma OneLiveEntry(trace: seq<State>, threads: seq<nat>, capacity: nat, t: nat, u: nat)
    requires IsRun(trace, threads, capacity)
    requires
      var s := trace[|threads|];
      && s.At(t).Handed().Some? && s.At(u).Handed().Some? && s.At(t).ip == s.At(u).ip
      && s.At(t).Handed().value !in s.removed && s.At(u).Handed().value !in s.removed
    ensures trace[|threads|].At(t).Handed() == trace[|threads|].At(u).Handed()
  {
    RunKeepsInv(trace, threads, capacity);
  }

  /** A store never replaces a live entry, and an entry once removed never comes back. */
  lemma StoreIsInsertion(trace: seq<State>, threads: seq<nat>, capacity: nat, t: nat, s': State)
    requires IsRun(trace, threads, capacity) && Step(trace[|threads|], t, s', capacity)
    ensures
      var s := trace[|threads|];
      && (forall ip | ip in s.table && ip in s'.table :: s'.table[ip] == s.table[ip])
      && (forall ip | ip in s'.table :: s'.table[ip] !in s'.removed)
      && s.removed <= s'.removed
  {
    RunKeepsInv(trace, threads, capacity);
    StepKeepsInv(trace[|threads|], t, s', capacity);
  }

  /** A caller is turned away only for an address without an entry, in a table at its capacity. */
  lemma RefusedOnlyWhenFull(trace: seq<State>, threads: seq<nat>, capacity: nat, t: nat, s': State)
    requires IsRun(trace, threads, capacity) && Step(trace[|threads|], t, s', capacity)
    requires trace[|threads|].At(t).ReadCount? && s'.At(t).Release?
    ensures
      var s := trace[|threads|];
      && s'.At(t).result == None && s'.At(t).ip == s.At(t).ip
      && s.At(t).ip !in s.table && |s.table| == capacity
  {
    RunKeepsInv(trace, threads, capacity);
    assert Knows(trace[|threads|], trace[|threads|].At(t), capacity);
  }

  ghost predicate StepsOf(run: seq<State>, t: nat, capacity: nat) {
    run != [] && forall i | 0 <= i < |run| - 1 :: Step(run[i], t, run[i + 1], capacity)
  }

  lemma OneMoreStep(run: seq<State>, t: nat, p: PC, s': State, capacity: nat)
    requires StepsOf(run, t, capacity) && run[|run| - 1].At(t) == p && Step(run[|run| - 1], t, s', capacity)
    ensures StepsOf(run + [s'], t, capacity)
  {
    hide Step;
  }

  /** With the mutex free, and an entry or room for one, a caller left alone comes back with the
      live entry of its address. */
  lemma CallerIsServed(s: State, t: nat, ip: string, capacity: nat) returns (run: seq<State>)
    requires Inv(s, capacity) && s.mutex == None && s.At(t) == FastLoad(ip)
    requires ip in s.table || |s.table| < capacity
    ensures StepsOf(run, t, capacity) && run[0] == s
    ensures
      var e := run[|run| - 1];
      && ip in e.table && e.At(t) == Returned(ip, Some(e.table[ip])) && e.mutex == None
      && e.table == (if ip in s.table then s.table else s.table[ip := s.next])
      && e.count == s.count + |e.table| - |s.table|
  {
    TableSize(s.table, ip, s.next);
    run := [s];
    if ip in s.table {
      OneMoreStep(run, t, FastLoad(ip), s.Go(t, Returned(ip, Some(s.table[ip]))), capacity);
      run := run + [s.Go(t, Returned(ip, Some(s.table[ip])))];
    } else {
      run := Admitted(s, t, ip, capacity);
      run := Created(run, t, ip, capacity);
    }
  }

  /** The checks, up to the decision to store. */
  lemma Admitted(s: State, t: nat, ip: string, capacity: nat) returns (run: seq<State>)
    requires s.count < capacity && s.mutex == None && s.At(t) == FastLoad(ip) && ip !in s.table
    ensures StepsOf(run, t, capacity) && run[0] == s
    ensures run[|run| - 1] == s.Go(t, Store(ip)).(mutex := Some(t))
  {
    var a := s.Go(t, Acquire(ip));
    var b := s.Go(t, SecondLoad(ip)).(mutex := Some(t));
    var c := s.Go(t, ReadCount(ip)).(mutex := Some(t));
    var d := s.Go(t, Store(ip)).(mutex := Some(t));
    assert b == a.Go(t, SecondLoad(ip)).(mutex := Some(t)) && c == b.Go(t, ReadCount(ip)) && d == c.Go(t, Store(ip));
    OneMoreStep([s], t, FastLoad(ip), a, capacity);
    OneMoreStep([s] + [a], t, Acquire(ip), b, capacity);
    OneMoreStep([s] + [a] + [b], t, SecondLoad(ip), c, capacity);
    OneMoreStep([s] + [a] + [b] + [c], t, ReadCount(ip), d, capacity);
    run := [s] + [a] + [b] + [c] + [d];
  }

  /** The store, the count and the way out. */
  lemma Created(before: seq<State>, t: nat, ip: string, capacity: nat) returns (run: seq<State>)
    requires StepsOf(before, t, capacity) && before[|before| - 1].At(t) == Store(ip)
    requires ip !in before[|before| - 1].table
    ensures StepsOf(run, t, capacity) && run[0] == before[0]
    ensures
      var d, g := before[|before| - 1], run[|run| - 1];
      g == d.Go(t, Returned(ip, Some(d.next))).(table := d.table[ip := d.next], next := d.next + 1,
                                               count := d.count + 1, mutex := None)
  {
    var d := before[|before| - 1];
    var stored := d.(table := d.table[ip := d.next], next := d.next + 1);
    var e := stored.Go(t, Increment(ip, d.next));
    var f := stored.Go(t, Release(ip, Some(d.next))).(count := d.count + 1);
    var g := stored.Go(t, Returned(ip, Some(d.next))).(count := d.count + 1, mutex := None);
    assert f == e.Go(t, Release(ip, Some(d.next))).(count := e.count + 1);
    assert g == f.Go(t, Returned(ip, Some(d.next))).(mutex := None);
    OneMoreStep(before, t, Store(ip), e, capacity);
    OneMoreStep(before + [e], t, Increment(ip, d.next), f, capacity);
    OneMoreStep(before + [e] + [f], t, Release(ip, Some(d.next)), g, capacity);
    run := before + [e] + [f] + [g];
  }
}
