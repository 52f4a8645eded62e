/** The nonce cache when requests take time: ServeHTTP of tincver/http_.go captures `now` on
    arrival and reaches the cache only after parsing and password hashing; the ticker computes
    its cutoff before it takes the lock.  Steps of all requests and of the ticker interleave. */
module NonceLatency {
  import opened Common
  import opened NonceCache

  /** One captured request on its way to the cache. */
  datatype Pending = Pending(key: string, stamp: int)

  /** ticker is the cutoff of a sweep that has not yet got the lock; log is a history variable. */
  datatype System = System(clock: int, nonces: Cache, inflight: map<nat, Pending>, ticker: Option<int>,
                         log: seq<Acceptance>)

  datatype Label =
    | Tick(delta: nat)
    | Capture(id: nat, key: string)
    | Finish(id: nat)
    | TickerCutoff
    | TickerSweep

  /** A request may finish at most `latency` after its capture. */
  ghost predicate Step(s: System, e: Label, t: System, l: Limits, latency: int) {
    match e
    case Tick(d) => t == s.(clock := s.clock + d)
    case Capture(id, key) => id !in s.inflight && t == s.(inflight := s.inflight[id := Pending(key, s.clock)])
    case Finish(id) =>
      && id in s.inflight
      && s.clock - s.inflight[id].stamp <= latency
      && (var q := s.inflight[id];
          var (m, ok) := Check(s.nonces, q.key, q.stamp, l);
          t == s.(nonces := m, inflight := s.inflight - {id},
                  log := if ok then s.log + [Acceptance(q.key, q.stamp)] else s.log))
    case TickerCutoff => s.ticker.None? && t == s.(ticker := Some(s.clock - l.ttl))
    case TickerSweep => s.ticker.Some? && t == s.(nonces := Keep(s.nonces, s.ticker.value), ticker := None)
  }

  ghost predicate Init(s: System) {
    s.nonces == map[] && s.inflight == map[] && s.ticker == None && s.log == []
  }

  /** trace[0] is initial and trace[i+1] follows from trace[i] by labels[i]. */
  ghost predicate IsRun(trace: seq<System>, labels: seq<Label>, l: Limits, latency: int) {
    && |trace| == |labels| + 1
    && Init(trace[0])
    && forall i | 0 <= i < |labels| :: Step(trace[i], labels[i], trace[i + 1], l, latency)
  }

  /** The smallest distance of two acceptances of one key.  A sweep removes what is older than ttl at
      the time it computes its cutoff, so a check that comes late loses all but one nanosecond of its
      latency. */
  function Gap(l: Limits, latency: int): int {
    if latency == 0 then l.ttl else l.ttl - latency + 1
  }

  /** Whatever was accepted is still covered by the map, or older than the clock minus ttl. */
  ghost predicate Inv(s: System, l: Limits, latency: int) {
    && (forall i | 0 <= i < |s.log| ::
          s.log[i].stamp < s.clock - l.ttl || (s.log[i].key in s.nonces && s.log[i].stamp <= s.nonces[s.log[i].key]))
    && (forall id | id in s.inflight :: s.inflight[id].stamp <= s.clock)
    && (s.ticker.Some? ==> s.ticker.value <= s.clock - l.ttl)
    && Spaced(s.log, Gap(l, latency))
  }

  lemma FinishKeepsInv(s: System, id: nat, t: System, l: Limits, latency: int)
    requires Inv(s, l, latency) && Step(s, Finish(id), t, l, latency) && 0 <= latency < l.ttl
    ensures Inv(t, l, latency)
  {
    var q := s.inflight[id];
    var (m, ok) := Check(s.nonces, q.key, q.stamp, l);
    if ok {
      var a := Acceptance(q.key, q.stamp);
      assert Fresh(s.log, a.key, a.stamp - Gap(l, latency)) by {
        forall i | 0 <= i < |s.log| && s.log[i].key == a.key ensures s.log[i].stamp <= a.stamp - Gap(l, latency) {
        }
      }
      SpacedAppend(s.log, a, Gap(l, latency));
    }
  }

  lemma StepKeepsInv(s: System, e: Label, t: System, l: Limits, latency: int)
    requires Inv(s, l, latency) && Step(s, e, t, l, latency) && 0 <= latency < l.ttl
    ensures Inv(t, l, latency)
  {
    match e
    case Finish(id) => FinishKeepsInv(s, id, t, l, latency);
    case Tick(_) =>
    case Capture(_, _) =>
    case TickerCutoff =>
    case TickerSweep =>
  }

  lemma {:induction false} RunKeepsInv(trace: seq<System>, labels: seq<Label>, l: Limits, latency: int)
    requires IsRun(trace, labels, l, latency) && 0 <= latency < l.ttl
    ensures Inv(trace[|labels|], l, latency)
  {
    if labels != [] {
      var n := |labels| - 1;
      RunKeepsInv(trace[..n + 1], labels[..n], l, latency);
      StepKeepsInv(trace[n], labels[n], trace[n + 1], l, latency);
    }
  }

  /** With requests finishing within latency < ttl, in any interleaving with each other, sweeps
      and capacity purges, acceptances of one key carry stamps at least Gap apart. */
  lemma AcceptancesApart(trace: seq<System>, labels: seq<Label>, l: Limits, latency: int, i: nat, j: nat)
    requires IsRun(trace, labels, l, latency) && 0 <= latency < l.ttl
    requires var log := trace[|labels|].log; i < j < |log| && log[i].key == log[j].key
    ensures var log := trace[|labels|].log; log[j].stamp - log[i].stamp >= Gap(l, latency)
  {
    RunKeepsInv(trace, labels, l, latency);
  }

  /** So a replay of one signed request needs both stamps close to the ends of its window. */
  lemma ReplayNeedsBothEnds(trace: seq<System>, labels: seq<Label>, l: Limits, latency: int, i: nat, j: nat,
                           ts: int, skew: int)
    requires IsRun(trace, labels, l, latency) && 0 <= latency < l.ttl && l.ttl == 2 * skew
    requires
      var log := trace[|labels|].log;
      && i < j < |log| && log[i].key == log[j].key
      && ts - skew <= log[i].stamp <= ts + skew && ts - skew <= log[j].stamp <= ts + skew
    ensures
      var log := trace[|labels|].log;
      log[i].stamp <= ts + skew - Gap(l, latency) && log[j].stamp >= ts - skew + Gap(l, latency)
  {
    AcceptancesApart(trace, labels, l, latency, i, j);
  }

  lemma Extend(trace: seq<System>, labels: seq<Label>, e: Label, t: System, l: Limits, latency: int)
    returns (trace': seq<System>, labels': seq<Label>)
    requires IsRun(trace, labels, l, latency) && Step(trace[|labels|], e, t, l, latency)
    ensures IsRun(trace', labels', l, latency) && trace'[|labels'|] == t
  {
    trace', labels' := trace + [t], labels + [e];
  }

  /** Whether or not requests take time, some run accepts one key twice exactly Gap apart: the bound
      cannot be improved. */
  lemma GapIsTight(key: string, l: Limits, latency: int)
    returns (trace: seq<System>, labels: seq<Label>)
    requires 0 <= latency < l.ttl && (l.capacity.Some? ==> l.capacity.value >= if latency == 0 then 2 else 1)
    ensures IsRun(trace, labels, l, latency)
    ensures trace[|labels|].log == [Acceptance(key, 0), Acceptance(key, Gap(l, latency))]
  {
    var g := Gap(l, latency);
    var log := [Acceptance(key, 0)];
    trace, labels := [System(0, map[], map[], None, [])], [];
    trace, labels := Extend(trace, labels, Capture(0, key), Holding(0, map[], key, 0, None, []), l, latency);
    FirstFinish(key, 0, l, latency, 0, []);
    trace, labels := Extend(trace, labels, Finish(0), System(0, map[key := 0], map[], None, log), l, latency);
    trace, labels := Extend(trace, labels, Tick(g), System(g, map[key := 0], map[], None, log), l, latency);
    trace, labels := Extend(trace, labels, Capture(0, key), Holding(g, map[key := 0], key, g, None, log), l, latency);
    if latency == 0 {
      SecondFinish(key, l, log);
      var end := System(g, map[key := g], map[], None, log + [Acceptance(key, g)]);
      trace, labels := Extend(trace, labels, Finish(0), end, l, latency);
    } else {
      var late := l.ttl + 1;
      var waiting := Holding(late, map[key := 0], key, g, None, log);
      trace, labels := Extend(trace, labels, Tick(latency), waiting, l, latency);
      trace, labels := Extend(trace, labels, TickerCutoff, waiting.(ticker := Some(1)), l, latency);
      assert Keep(map[key := 0], 1) == map[];
      trace, labels := Extend(trace, labels, TickerSweep, Holding(late, map[], key, g, None, log), l, latency);
      FirstFinish(key, g, l, latency, late, log);
      var end := System(late, map[key := g], map[], None, log + [Acceptance(key, g)]);
      trace, labels := Extend(trace, labels, Finish(0), end, l, latency);
    }
  }

  /** A system with one request in flight. */
  function Holding(clock: int, nonces: Cache, key: string, stamp: int, ticker: Option<int>,
                   log: seq<Acceptance>): System
  {
    System(clock, nonces, map[0 := Pending(key, stamp)], ticker, log)
  }

  lemma FirstFinish(key: string, stamp: int, l: Limits, latency: int, clock: int, log: seq<Acceptance>)
    requires clock - stamp <= latency && (l.capacity.Some? ==> l.capacity.value >= 1)
    ensures Step(Holding(clock, map[], key, stamp, None, log), Finish(0),
                 System(clock, map[key := stamp], map[], None, log + [Acceptance(key, stamp)]), l, latency)
  {
    assert map[0 := Pending(key, stamp)] - {0} == map[];
  }

  /** An entry as old as ttl is overwritten; if the cache was full, it is purged only when older, so
      that this needs room for two. */
  lemma SecondFinish(key: string, l: Limits, log: seq<Acceptance>)
    requires 0 < l.ttl && (l.capacity.Some? ==> l.capacity.value >= 2)
    ensures Step(Holding(l.ttl, map[key := 0], key, l.ttl, None, log), Finish(0),
                 System(l.ttl, map[key := l.ttl], map[], None, log + [Acceptance(key, l.ttl)]), l, 0)
  {
    assert map[0 := Pending(key, l.ttl)] - {0} == map[];
    assert map[key := 0][key := l.ttl] == map[key := l.ttl];
  }
}
