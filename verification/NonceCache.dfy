/** The replay cache of tincver/http_.go (bounded) and src/esa/http_.go (unbounded): one map of
    last acceptance times, pruned by a ticker and when it is full.  Times are nanoseconds. */
module NonceCache {
  import opened Common

  const NONCE_TTL: int := 60 * SECOND
  const MAX_NONCES: nat := 100_000

  /** capacity is None for src/esa, which has no limit. */
  datatype Limits = Limits(ttl: int, capacity: Option<nat>) {
    predicate Full(n: nat) { capacity.Some? && n >= capacity.value }
  }

  const TINCVER_LIMITS := Limits(NONCE_TTL, Some(MAX_NONCES))
  const ESA_LIMITS := Limits(NONCE_TTL, None)

  type Cache = map<string, int>

  // ---------------------------------------------------------------- one call

  /** Entries stamped before the cutoff are dropped. */
  function Keep(m: Cache, cutoff: int): Cache {
    map k | k in m && m[k] >= cutoff :: m[k]
  }

  function Check(m: Cache, key: string, now: int, l: Limits): (Cache, bool) {
    var cutoff := now - l.ttl;
    if key in m && m[key] > cutoff then (m, false) else
    var room := if l.Full(|m|) then Keep(m, cutoff) else m;
    if l.Full(|room|) then (room, false) else (room[key := now], true)
  }

  class NonceStore {
    const limits: Limits
    var nonces: Cache

    constructor (limits: Limits)
      ensures this.limits == limits && nonces == map[]
    {
      this.limits := limits;
      nonces := map[];
    }

    /** The range-and-delete loop shared by the ticker and the capacity purge. */
    method Prune(cutoff: int)
      modifies this`nonces
      ensures nonces == Keep(old(nonces), cutoff)
    {
      var todo := nonces.Keys;
      ghost var before := nonces;
      while todo != {}
        invariant todo <= before.Keys
        invariant nonces == map k | k in before && (k in todo || before[k] >= cutoff) :: before[k]
        decreases todo
      {
        var k :| k in todo;
        if nonces[k] < cutoff {
          nonces := nonces - {k};
        }
        todo := todo - {k};
      }
    }

    method CheckAndStoreNonce(user: string, nonce: string, now: int) returns (ok: bool)
      modifies this`nonces
      ensures (nonces, ok) == Check(old(nonces), user + ":" + nonce, now, limits)
    {
      var key := user + ":" + nonce;
      var cutoff := now - limits.ttl;
      if key in nonces && nonces[key] > cutoff {
        return false;
      }
      if limits.Full(|nonces|) {
        Prune(cutoff);
        if limits.Full(|nonces|) {
          return false;
        }
      }
      nonces := nonces[key := now];
      return true;
    }

    /** One tick of StartNonceCleanup. */
    method Sweep(now: int)
      modifies this`nonces
      ensures nonces == Keep(old(nonces), now - limits.ttl)
    {
      Prune(now - limits.ttl);
    }
  }

  // ---------------------------------------------------------------- whole runs

  datatype Event = Request(key: string, now: int) | Sweep(now: int)

  datatype Acceptance = Acceptance(key: string, stamp: int)

  /** The cache together with everything it ever accepted. */
  datatype State = State(nonces: Cache, history: seq<Acceptance>)

  const EMPTY := State(map[], [])

  function Step(s: State, e: Event, l: Limits): State {
    match e
    case Sweep(now) => s.(nonces := Keep(s.nonces, now - l.ttl))
    case Request(key, now) =>
      var (m, ok) := Check(s.nonces, key, now, l);
      State(m, if ok then s.history + [Acceptance(key, now)] else s.history)
  }

  function Run(events: seq<Event>, l: Limits): State {
    if events == [] then EMPTY else Step(Run(events[..|events| - 1], l), events[|events| - 1], l)
  }

  predicate Ordered(events: seq<Event>) {
    forall i, j | 0 <= i < j < |events| :: events[i].now <= events[j].now
  }

  // ---------------------------------------------------------------- the unbounded ideal

  /** Nothing is ever forgotten: a key is refused after an acceptance later than now - ttl, and
      when capacity keys were accepted at or after now - ttl. */
  ghost predicate Fresh(h: seq<Acceptance>, key: string, cutoff: int) {
    forall i | 0 <= i < |h| && h[i].key == key :: h[i].stamp <= cutoff
  }

  ghost function Live(h: seq<Acceptance>, cutoff: int): set<string> {
    set i | 0 <= i < |h| && h[i].stamp >= cutoff :: h[i].key
  }

  ghost predicate IdealAccepts(h: seq<Acceptance>, key: string, now: int, l: Limits) {
    Fresh(h, key, now - l.ttl) && !l.Full(|Live(h, now - l.ttl)|)
  }

  ghost function IdealRun(events: seq<Event>, l: Limits): seq<Acceptance> {
    if events == [] then [] else
    var h := IdealRun(events[..|events| - 1], l);
    match events[|events| - 1]
    case Sweep(_) => h
    case Request(key, now) => if IdealAccepts(h, key, now, l) then h + [Acceptance(key, now)] else h
  }

  // ---------------------------------------------------------------- refinement

  /** The map holds the last acceptance of each of its keys; what it lacks is old. */
  ghost predicate Inv(s: State, clock: int, l: Limits) {
    && (forall k | k in s.nonces :: Acceptance(k, s.nonces[k]) in s.history)
    && (forall i | 0 <= i < |s.history| && s.history[i].key in s.nonces ::
          s.history[i].stamp <= s.nonces[s.history[i].key])
    && (forall i | 0 <= i < |s.history| && s.history[i].key !in s.nonces :: s.history[i].stamp < clock - l.ttl)
    && (forall i | 0 <= i < |s.history| :: s.history[i].stamp <= clock)
    && (l.capacity.Some? ==> |s.nonces| <= l.capacity.value)
  }

  lemma KeepSize(m: Cache, cutoff: int)
    ensures |Keep(m, cutoff)| <= |m|
    ensures Keep(m, cutoff).Keys == set k | k in m && m[k] >= cutoff
  {
    SubsetSize(Keep(m, cutoff).Keys, m.Keys);
  }

  lemma LiveIsKept(s: State, clock: int, now: int, l: Limits)
    requires Inv(s, clock, l) && clock <= now
    ensures Live(s.history, now - l.ttl) == Keep(s.nonces, now - l.ttl).Keys
  {
    var cutoff := now - l.ttl;
    forall k | k in Keep(s.nonces, cutoff).Keys ensures k in Live(s.history, cutoff) {
      var i :| 0 <= i < |s.history| && s.history[i] == Acceptance(k, s.nonces[k]);
      assert s.history[i].stamp >= cutoff;
    }
  }

  lemma KeepInv(s: State, clock: int, now: int, l: Limits)
    requires Inv(s, clock, l) && clock <= now
    ensures Inv(s.(nonces := Keep(s.nonces, now - l.ttl)), now, l)
  {
    KeepSize(s.nonces, now - l.ttl);
  }

  lemma CheckDecides(s: State, clock: int, key: string, now: int, l: Limits)
    requires Inv(s, clock, l) && clock <= now
    ensures Check(s.nonces, key, now, l).1 <==> IdealAccepts(s.history, key, now, l)
  {
    var cutoff := now - l.ttl;
    LiveIsKept(s, clock, now, l);
    KeepSize(s.nonces, cutoff);
    var kept := Keep(s.nonces, cutoff);
    assert |kept| == |Live(s.history, cutoff)| by { assert |kept.Keys| == |kept|; }
    if key in s.nonces && s.nonces[key] > cutoff {
      var i :| 0 <= i < |s.history| && s.history[i] == Acceptance(key, s.nonces[key]);
      assert !Fresh(s.history, key, cutoff);
    } else {
      assert Fresh(s.history, key, cutoff);
    }
  }

  lemma LaterInv(s: State, clock: int, now: int, l: Limits)
    requires Inv(s, clock, l) && clock <= now
    ensures Inv(s, now, l)
  {
  }

  lemma StepInv(s: State, clock: int, e: Event, l: Limits)
    requires Inv(s, clock, l) && clock <= e.now
    ensures Inv(Step(s, e, l), e.now, l)
  {
    KeepInv(s, clock, e.now, l);
    LaterInv(s, clock, e.now, l);
    hide Inv;
    if e.Request? && Check(s.nonces, e.key, e.now, l).1 {
      var room := if l.Full(|s.nonces|) then Keep(s.nonces, e.now - l.ttl) else s.nonces;
      StoreInv(State(room, s.history), e.key, e.now, l);
    }
  }

  lemma StoreInv(s: State, key: string, now: int, l: Limits)
    requires Inv(s, now, l) && !l.Full(|s.nonces|)
    ensures Inv(State(s.nonces[key := now], s.history + [Acceptance(key, now)]), now, l)
  {
    var h, m := s.history + [Acceptance(key, now)], s.nonces[key := now];
    forall k | k in m ensures Acceptance(k, m[k]) in h {
      if k == key { assert h[|s.history|] == Acceptance(k, m[k]); }
    }
    assert |m| <= |s.nonces| + 1 by {
      assert m.Keys == s.nonces.Keys + {key};
      assert |m.Keys| == |m| && |s.nonces.Keys| == |s.nonces|;
    }
  }

  /** Whatever the timing of the sweeps, the pruned cache accepts exactly what the unbounded
      history accepts, and it never outgrows its capacity. */
  lemma {:induction false} Refinement(events: seq<Event>, l: Limits)
    requires Ordered(events)
    ensures Run(events, l).history == IdealRun(events, l)
    ensures l.capacity.Some? ==> |Run(events, l).nonces| <= l.capacity.value
    ensures events != [] ==> Inv(Run(events, l), events[|events| - 1].now, l)
  {
    if events != [] {
      var n := |events| - 1;
      var s, e := Run(events[..n], l), events[n];
      Refinement(events[..n], l);
      var clock := if n == 0 then e.now else events[n - 1].now;
      assert Inv(s, clock, l);
      StepInv(s, clock, e, l);
      if e.Request? { CheckDecides(s, clock, e.key, e.now, l); }
    }
  }

  function Requests(events: seq<Event>): seq<Event> {
    if events == [] then [] else
    var init, e := Requests(events[..|events| - 1]), events[|events| - 1];
    if e.Request? then init + [e] else init
  }

  lemma {:induction false} RequestsOrdered(events: seq<Event>)
    requires Ordered(events)
    ensures Ordered(Requests(events))
    ensures forall e | e in Requests(events) :: e in events
  {
    if events != [] {
      var n := |events| - 1;
      var init := Requests(events[..n]);
      RequestsOrdered(events[..n]);
      forall i | 0 <= i < |init| ensures init[i].now <= events[n].now {
        assert init[i] in events[..n];
      }
    }
  }

  lemma {:induction false} IdealIgnoresSweeps(events: seq<Event>, l: Limits)
    ensures IdealRun(events, l) == IdealRun(Requests(events), l)
  {
    if events != [] {
      var n := |events| - 1;
      IdealIgnoresSweeps(events[..n], l);
      var r := Requests(events);
      if events[n].Request? { assert r[..|r| - 1] == Requests(events[..n]); }
    }
  }

  /** Sweeping is invisible: removing every sweep from a run changes no decision. */
  lemma SweepsAreInvisible(events: seq<Event>, l: Limits)
    requires Ordered(events)
    ensures Run(events, l).history == Run(Requests(events), l).history
  {
    RequestsOrdered(events);
    Refinement(events, l);
    Refinement(Requests(events), l);
    IdealIgnoresSweeps(events, l);
  }

  /** Acceptances of one key are at least `gap` apart. */
  ghost predicate Spaced(h: seq<Acceptance>, gap: int) {
    forall i, j | 0 <= i < j < |h| && h[i].key == h[j].key :: h[j].stamp - h[i].stamp >= gap
  }

  lemma SpacedAppend(h: seq<Acceptance>, a: Acceptance, gap: int)
    requires Spaced(h, gap) && Fresh(h, a.key, a.stamp - gap)
    ensures Spaced(h + [a], gap)
  {
  }

  /** In every clock-ordered run of the cache two acceptances of one key are at least ttl apart. */
  lemma AcceptancesSpaced(events: seq<Event>, l: Limits)
    requires Ordered(events)
    ensures Spaced(Run(events, l).history, l.ttl)
  {
    Refinement(events, l);
    IdealIsSpaced(events, l);
  }

  lemma {:induction false} IdealIsSpaced(events: seq<Event>, l: Limits)
    ensures Spaced(IdealRun(events, l), l.ttl)
  {
    if events != [] {
      var e := events[|events| - 1];
      var h := IdealRun(events[..|events| - 1], l);
      IdealIsSpaced(events[..|events| - 1], l);
      if e.Request? && IdealAccepts(h, e.key, e.now, l) {
        SpacedAppend(h, Acceptance(e.key, e.now), l.ttl);
      }
    }
  }
}
