/** The token bucket of one client address in allowRequest of tincver/http_.go.  Time is in
    nanoseconds and one token is 10^9 units, so that the refill of one token per second is exact. */
module TokenBucket {
  import opened Common

  /** burst and cost in nano-tokens; idle is the sweep age in nanoseconds. */
  datatype Rate = Rate(burst: int, cost: int, idle: int) {
    predicate Valid() { 0 < cost <= burst <= idle }
  }

  const RATE := Rate(5 * SECOND, SECOND, 15 * 60 * SECOND)

  function Min(a: int, b: int): int { if a <= b then a else b }

  predicate Ordered(ts: seq<int>) {
    forall i, j | 0 <= i < j < |ts| :: ts[i] <= ts[j]
  }

  /** The level a bucket that served requests at times ts shows at time now; it starts full. */
  function Level(ts: seq<int>, now: int, r: Rate): int
    decreases |ts|, 1
  {
    if ts == [] then r.burst else Min(r.burst, Left(ts, r) + now - ts[|ts| - 1])
  }

  /** What is left right after the last request. */
  function Left(ts: seq<int>, r: Rate): int
    requires ts != []
    decreases |ts|, 0
  {
    var level := Level(ts[..|ts| - 1], ts[|ts| - 1], r);
    if level < r.cost then level else level - r.cost
  }

  /** Request j of the sequence is allowed. */
  predicate Allowed(ts: seq<int>, j: nat, r: Rate)
    requires j < |ts|
  {
    Level(ts[..j], ts[j], r) >= r.cost
  }

  /** Number of allowed requests among i, ..., j-1. */
  function Count(ts: seq<int>, i: nat, j: nat, r: Rate): nat
    requires i <= j <= |ts|
    decreases j
  {
    if i == j then 0 else Count(ts, i, j - 1, r) + (if Allowed(ts, j - 1, r) then 1 else 0)
  }

  // ---------------------------------------------------------------- the level as a minimum over windows

  /** What window i leaves for request j. */
  function Window(ts: seq<int>, i: nat, j: nat, r: Rate): int
    requires i <= j < |ts|
  {
    r.burst + (ts[j] - ts[i]) - Count(ts, i, j, r) * r.cost
  }

  lemma WindowStep(ts: seq<int>, i: nat, j: nat, r: Rate)
    requires i < j < |ts|
    ensures Window(ts, i, j, r)
         == Window(ts, i, j - 1, r) + (ts[j] - ts[j - 1]) - (if Allowed(ts, j - 1, r) then r.cost else 0)
  {
    var c := Count(ts, i, j - 1, r);
    assert (c + 1) * r.cost == c * r.cost + r.cost;
  }

  lemma LevelStep(ts: seq<int>, j: nat, r: Rate)
    requires 0 < j < |ts|
    ensures
      var before := Level(ts[..j - 1], ts[j - 1], r);
      Level(ts[..j], ts[j], r)
      == Min(r.burst, before - (if Allowed(ts, j - 1, r) then r.cost else 0) + ts[j] - ts[j - 1])
  {
    assert ts[..j][..j - 1] == ts[..j - 1];
  }

  lemma {:induction false} LevelBelowWindows(ts: seq<int>, i: nat, j: nat, r: Rate)
    requires Ordered(ts) && i <= j < |ts|
    ensures Level(ts[..j], ts[j], r) <= Window(ts, i, j, r)
    decreases j
  {
    if i < j {
      LevelBelowWindows(ts, i, j - 1, r);
      LevelStep(ts, j, r);
      WindowStep(ts, i, j, r);
    }
  }

  /** Some window explains the level exactly. */
  lemma {:induction false} LevelIsSomeWindow(ts: seq<int>, j: nat, r: Rate) returns (i: nat)
    requires Ordered(ts) && j < |ts|
    ensures i <= j && Level(ts[..j], ts[j], r) == Window(ts, i, j, r)
    decreases j
  {
    i := j;
    if j > 0 && Level(ts[..j], ts[j], r) < r.burst {
      i := LevelIsSomeWindow(ts, j - 1, r);
      LevelStep(ts, j, r);
      WindowStep(ts, i, j, r);
    }
  }

  /** Exact characterisation: request j is refused iff some window i..j holds too many. */
  lemma RefusedIff(ts: seq<int>, j: nat, r: Rate)
    requires Ordered(ts) && j < |ts|
    ensures !Allowed(ts, j, r) <==>
      exists i: nat :: i <= j && Overdrawn(ts, i, j, r)
  {
    var w := LevelIsSomeWindow(ts, j, r);
    if !Allowed(ts, j, r) {
      OverdrawnWindow(ts, w, j, r);
    } else {
      forall i: nat | i <= j ensures !Overdrawn(ts, i, j, r) {
        LevelBelowWindows(ts, i, j, r);
        OverdrawnWindow(ts, i, j, r);
      }
    }
  }

  /** Allowing j would exceed burst plus the refill since request i. */
  ghost predicate Overdrawn(ts: seq<int>, i: nat, j: nat, r: Rate)
    requires i <= j < |ts|
  {
    (Count(ts, i, j, r) + 1) * r.cost > r.burst + (ts[j] - ts[i])
  }

  lemma OverdrawnWindow(ts: seq<int>, i: nat, j: nat, r: Rate)
    requires i <= j < |ts|
    ensures Overdrawn(ts, i, j, r) <==> Window(ts, i, j, r) < r.cost
  {
    var c := Count(ts, i, j, r);
    assert (c + 1) * r.cost == c * r.cost + r.cost;
  }

  /** Any window of requests i..j holds at most burst + length of allowed work. */
  lemma {:induction false} WindowBound(ts: seq<int>, i: nat, j: nat, r: Rate)
    requires Ordered(ts) && i <= j < |ts| && r.Valid()
    ensures Count(ts, i, j + 1, r) * r.cost <= r.burst + (ts[j] - ts[i])
    decreases j
  {
    if Allowed(ts, j, r) {
      LevelBelowWindows(ts, i, j, r);
      OverdrawnWindow(ts, i, j, r);
    } else if i < j {
      WindowBound(ts, i, j - 1, r);
    }
  }

  /** A client whose every window stays within burst plus refill is never refused. */
  lemma ConformingNeverRefused(ts: seq<int>, r: Rate)
    requires Ordered(ts) && r.Valid()
    requires forall i: nat, j: nat :: i <= j < |ts| ==> (j - i + 1) * r.cost <= r.burst + (ts[j] - ts[i])
    ensures forall j: nat | j < |ts| :: Allowed(ts, j, r)
  {
    forall j: nat | j < |ts| ensures Allowed(ts, j, r) {
      var i := LevelIsSomeWindow(ts, j, r);
      CountBound(ts, i, j, r);
      CostMonotone(Count(ts, i, j, r), j - i, r.cost);
    }
  }

  lemma CostMonotone(a: int, b: int, cost: int)
    requires a <= b && 0 < cost
    ensures a * cost + cost <= (b + 1) * cost
  {
    assert (b - a) * cost >= 0;
    assert (b + 1) * cost == a * cost + (b - a) * cost + cost;
  }

  lemma {:induction false} CountBound(ts: seq<int>, i: nat, j: nat, r: Rate)
    requires i <= j <= |ts|
    ensures Count(ts, i, j, r) <= j - i
    decreases j
  {
    if i < j { CountBound(ts, i, j - 1, r); }
  }

  /** The level never exceeds the burst and never falls below zero. */
  lemma {:induction false} LevelRange(ts: seq<int>, now: int, r: Rate)
    requires r.Valid() && Ordered(ts) && (ts != [] ==> ts[|ts| - 1] <= now)
    ensures 0 <= Level(ts, now, r) <= r.burst
    decreases |ts|
  {
    if ts != [] { LevelRange(ts[..|ts| - 1], ts[|ts| - 1], r); }
  }

  /** Waiting refills: the level at a later time is the earlier one plus the wait, up to the burst. */
  lemma LevelLater(ts: seq<int>, t: int, now: int, r: Rate)
    requires t <= now
    ensures Level(ts, now, r) == Min(r.burst, Level(ts, t, r) + now - t)
  {
  }
}
