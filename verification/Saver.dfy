/** The save debouncer of src/esa/updateconf.go: any number of producers in scheduleWGPersist, one
    debouncer and one persister over two bounded channels.  Every channel operation is a step of
    its own; the timer fires whenever it likes.  stopWGSaver is never called. */
module Saver {
  import opened Common

  datatype Request = Request(iface: string, confPath: string)

  /** Capacities of wgSaveCh and wgSaveQueueCh; both are 64 in the program. */
  datatype Capacities = Capacities(ch: nat, queue: nat)
  {
    predicate Valid() { ch >= 1 && queue >= 1 }
  }

  const PROGRAM := Capacities(64, 64)

  /** A call of scheduleWGPersist: before the first send, after it met a full channel, after it
      took the oldest request out. */
  datatype Producer = Inside(r: Request) | Full(r: Request) | Dropped(r: Request)

  datatype Debouncer = Idle | Armed(fired: bool) | Flushing(todo: set<string>)

  datatype Persister = Waiting | Taken(r: Request) | Saving(r: Request)

  /** version counts the changes of an interface, saved the version its last started save wrote;
      lost collects the interfaces of which a request was thrown away for another interface's. */
  datatype State = State(ch: seq<Request>, pending: map<string, Request>, queue: seq<Request>,
                         debouncer: Debouncer, persister: Persister, producers: map<nat, Producer>,
                         version: map<string, nat>, saved: map<string, nat>, lost: set<string>)
  {
    function Version(i: string): nat { if i in version then version[i] else 0 }
    function Saved(i: string): nat { if i in saved then saved[i] else 0 }
  }

  const START := State([], map[], [], Idle, Waiting, map[], map[], map[], {})

  datatype Label =
    | Change(p: nat, r: Request)  // a peer changes and producer p enters scheduleWGPersist
    | FirstTry(p: nat)
    | DropOldest(p: nat)
    | SecondTry(p: nat)
    | Receive
    | Fire
    | StartFlush
    | Send(iface: string)
    | EndFlush
    | Take
    | StartSave
    | EndSave

  predicate Enabled(s: State, l: Label, c: Capacities) {
    match l
    case Change(p, _) => p !in s.producers
    case FirstTry(p) => p in s.producers && s.producers[p].Inside?
    case DropOldest(p) => p in s.producers && s.producers[p].Full?
    case SecondTry(p) => p in s.producers && s.producers[p].Dropped?
    case Receive => s.ch != [] && !s.debouncer.Flushing?
    case Fire => s.debouncer == Armed(false)
    case StartFlush => s.debouncer == Armed(true)
    case Send(i) => s.debouncer.Flushing? && i in s.debouncer.todo && i in s.pending && |s.queue| < c.queue
    case EndFlush => s.debouncer == Flushing({})
    case Take => s.persister.Waiting? && s.queue != []
    case StartSave => s.persister.Taken?
    case EndSave => s.persister.Saving?
  }

  predicate Has(rs: seq<Request>, i: string) {
    exists r :: r in rs && r.iface == i
  }

  function Next(s: State, l: Label, c: Capacities): State
    requires Enabled(s, l, c)
  {
    match l
    case Change(p, r) =>
      s.(version := s.version[r.iface := s.Version(r.iface) + 1], producers := s.producers[p := Inside(r)])
    case FirstTry(p) =>
      var r := s.producers[p].r;
      if |s.ch| < c.ch then s.(ch := s.ch + [r], producers := s.producers - {p})
      else s.(producers := s.producers[p := Full(r)])
    case DropOldest(p) =>
      var r := s.producers[p].r;
      if s.ch == [] then s.(producers := s.producers[p := Dropped(r)])
      else s.(ch := s.ch[1..], producers := s.producers[p := Dropped(r)],
              lost := if s.ch[0].iface == r.iface then s.lost else s.lost + {s.ch[0].iface})
    case SecondTry(p) =>
      var r := s.producers[p].r;
      if |s.ch| < c.ch then s.(ch := s.ch + [r], producers := s.producers - {p})
      else s.(producers := s.producers - {p},
              lost := if Has(s.ch, r.iface) then s.lost else s.lost + {r.iface})
    case Receive =>
      s.(ch := s.ch[1..], pending := s.pending[s.ch[0].iface := s.ch[0]], debouncer := Armed(false))
    case Fire => s.(debouncer := Armed(true))
    case StartFlush => s.(debouncer := Flushing(s.pending.Keys))
    case Send(i) => s.(queue := s.queue + [s.pending[i]], debouncer := Flushing(s.debouncer.todo - {i}))
    case EndFlush => s.(pending := map[], debouncer := Idle)
    case Take => s.(persister := Taken(s.queue[0]), queue := s.queue[1..])
    case StartSave =>
      var i := s.persister.r.iface;
      s.(saved := s.saved[i := s.Version(i)], persister := Saving(s.persister.r))
    case EndSave => s.(persister := Waiting)
  }

  /** The state after a run, or None when some label was not enabled in its turn. */
  function Run(labels: seq<Label>, c: Capacities): Option<State> {
    if labels == [] then Some(START) else
    var s := Run(labels[..|labels| - 1], c);
    var l := labels[|labels| - 1];
    if s.Some? && Enabled(s.value, l, c) then Some(Next(s.value, l, c)) else None
  }

  // ---------------------------------------------------------------- no lost save

  ghost predicate Working(producers: map<nat, Producer>, i: string) {
    exists p :: p in producers && producers[p].r.iface == i
  }

  /** A save of the interface is still to come. */
  ghost predicate Covered(s: State, i: string) {
    || Has(s.ch, i)
    || (i in s.pending && (s.debouncer.Flushing? ==> i in s.debouncer.todo))
    || Has(s.queue, i)
    || (s.persister.Taken? && s.persister.r.iface == i)
    || Working(s.producers, i)
  }

  ghost predicate NothingLost(s: State) {
    forall i :: s.Saved(i) < s.Version(i) && i !in s.lost ==> Covered(s, i)
  }

  /** At the loop head the timer is armed iff something is pending; while flushing, what is still
      to be sent is pending. */
  ghost predicate Shape(s: State, c: Capacities) {
    && |s.ch| <= c.ch && |s.queue| <= c.queue
    && (s.debouncer.Idle? ==> s.pending == map[])
    && (s.debouncer.Armed? ==> s.pending != map[])
    && (s.debouncer.Flushing? ==> s.debouncer.todo <= s.pending.Keys)
    && (forall i | i in s.pending :: s.pending[i].iface == i)
    && (forall i :: s.Saved(i) <= s.Version(i))
  }

  lemma ShapeKept(s: State, l: Label, c: Capacities)
    requires c.Valid() && Shape(s, c) && Enabled(s, l, c)
    ensures Shape(Next(s, l, c), c)
  {
    var t := Next(s, l, c);
    if l.Receive? { assert s.ch[0].iface in t.pending; }
    forall i ensures t.Saved(i) <= t.Version(i) {
      assert s.Saved(i) <= s.Version(i);
    }
  }

  lemma HasAppend(rs: seq<Request>, r: Request, i: string)
    ensures Has(rs + [r], i) <==> Has(rs, i) || r.iface == i
  {
    assert r in rs + [r];
    if Has(rs, i) { var q :| q in rs && q.iface == i; assert q in rs + [r]; }
  }

  lemma HasTail(rs: seq<Request>, i: string)
    requires rs != []
    ensures Has(rs, i) <==> rs[0].iface == i || Has(rs[1..], i)
  {
    assert rs == [rs[0]] + rs[1..];
    if Has(rs[1..], i) { var q :| q in rs[1..] && q.iface == i; assert q in rs; }
    if Has(rs, i) { var q :| q in rs && q.iface == i; assert q == rs[0] || q in rs[1..]; }
    assert rs[0] in rs;
  }

  /** A producer that stays, moves on or leaves: the others keep working. */
  lemma OthersWork(producers: map<nat, Producer>, p: nat, next: Producer, i: string)
    ensures Working(producers[p := next], i) <==> Working(producers - {p}, i) || next.r.iface == i
    ensures p in producers ==> (Working(producers, i) <==> Working(producers - {p}, i) || producers[p].r.iface == i)
    ensures p !in producers ==> (Working(producers, i) <==> Working(producers - {p}, i))
  {
    var more, less := producers[p := next], producers - {p};
    assert more[p].r == next.r;
    if Working(less, i) { var q :| q in less && less[q].r.iface == i; assert more[q] == less[q] && q in producers; }
    if Working(more, i) {
      var q :| q in more && more[q].r.iface == i;
      assert q == p || (q in less && less[q] == more[q]);
    }
    if Working(producers, i) {
      var q :| q in producers && producers[q].r.iface == i;
      assert q == p || (q in less && less[q] == producers[q]);
    }
  }

  /** A step of a producer keeps every interface covered, or the interface is lost. */
  lemma ProducerKeepsCover(s: State, l: Label, c: Capacities, i: string)
    requires c.Valid() && Shape(s, c) && Enabled(s, l, c)
    requires l.Change? || l.FirstTry? || l.DropOldest? || l.SecondTry?
    requires s.Saved(i) < s.Version(i) && i !in s.lost ==> Covered(s, i)
    ensures var t := Next(s, l, c); t.Saved(i) < t.Version(i) && i !in t.lost ==> Covered(t, i)
  {
    var r := if l.Change? then l.r else s.producers[l.p].r;
    OthersWork(s.producers, l.p, Inside(r), i);
    OthersWork(s.producers, l.p, Full(r), i);
    OthersWork(s.producers, l.p, Dropped(r), i);
    HasAppend(s.ch, r, i);
    if s.ch != [] { HasTail(s.ch, i); }
  }

  /** So does a step of the debouncer or the persister. */
  lemma ConsumerKeepsCover(s: State, l: Label, c: Capacities, i: string)
    requires c.Valid() && Shape(s, c) && Enabled(s, l, c)
    requires !(l.Change? || l.FirstTry? || l.DropOldest? || l.SecondTry?)
    requires s.Saved(i) < s.Version(i) && i !in s.lost ==> Covered(s, i)
    ensures var t := Next(s, l, c); t.Saved(i) < t.Version(i) && i !in t.lost ==> Covered(t, i)
  {
    if s.ch != [] { HasTail(s.ch, i); }
    if s.queue != [] { HasTail(s.queue, i); }
    if l.Send? { HasAppend(s.queue, s.pending[l.iface], i); }
  }

  lemma StepKeepsInv(s: State, l: Label, c: Capacities)
    requires c.Valid() && Shape(s, c) && NothingLost(s) && Enabled(s, l, c)
    ensures Shape(Next(s, l, c), c) && NothingLost(Next(s, l, c))
  {
    ShapeKept(s, l, c);
    var t := Next(s, l, c);
    forall i | t.Saved(i) < t.Version(i) && i !in t.lost ensures Covered(t, i) {
      if l.Change? || l.FirstTry? || l.DropOldest? || l.SecondTry? {
        ProducerKeepsCover(s, l, c, i);
      } else {
        ConsumerKeepsCover(s, l, c, i);
      }
    }
  }

  /** In every reachable state a change newer than the last started save is still on its way, for
      every interface none of whose requests gave way to another interface. */
  lemma {:induction false} RunKeepsInv(labels: seq<Label>, c: Capacities)
    requires c.Valid() && Run(labels, c).Some?
    ensures Shape(Run(labels, c).value, c) && NothingLost(Run(labels, c).value)
  {
    if labels != [] {
      var n := |labels| - 1;
      RunKeepsInv(labels[..n], c);
      StepKeepsInv(Run(labels[..n], c).value, labels[n], c);
    }
  }

  // ---------------------------------------------------------------- one interface

  predicate Only(rs: seq<Request>, i: string) {
    forall r | r in rs :: r.iface == i
  }

  /** Every request anywhere is one of interface i. */
  ghost predicate OneInterface(s: State, i: string) {
    && Only(s.ch, i) && s.lost == {}
    && forall p | p in s.producers :: s.producers[p].r.iface == i
  }

  lemma OneInterfaceKept(s: State, l: Label, c: Capacities, i: string)
    requires c.Valid() && Shape(s, c) && OneInterface(s, i) && Enabled(s, l, c)
    requires l.Change? ==> l.r.iface == i
    ensures OneInterface(Next(s, l, c), i)
  {
    if s.ch != [] { assert s.ch[0] in s.ch && Has(s.ch, s.ch[0].iface); }
  }

  lemma {:induction false} OneInterfaceRun(labels: seq<Label>, c: Capacities, i: string)
    requires c.Valid() && Run(labels, c).Some?
    requires forall l | l in labels && l.Change? :: l.r.iface == i
    ensures OneInterface(Run(labels, c).value, i)
  {
    if labels != [] {
      var n := |labels| - 1;
      OneInterfaceRun(labels[..n], c, i);
      RunKeepsInv(labels[..n], c);
      assert labels[n] in labels;
      OneInterfaceKept(Run(labels[..n], c).value, labels[n], c, i);
    }
  }

  /** One interface, any number of producers, any capacities: no save is ever lost. */
  lemma NoLostSave(labels: seq<Label>, c: Capacities, i: string)
    requires c.Valid() && Run(labels, c).Some?
    requires forall l | l in labels && l.Change? :: l.r.iface == i
    ensures var s := Run(labels, c).value; s.Saved(i) < s.Version(i) ==> Covered(s, i)
  {
    RunKeepsInv(labels, c);
    OneInterfaceRun(labels, c, i);
  }

  // ---------------------------------------------------------------- progress

  function FlushLeft(s: State): set<string> {
    if s.debouncer.Flushing? then s.debouncer.todo else s.pending.Keys
  }

  ghost function Early(producers: map<nat, Producer>): set<nat> {
    set p | p in producers && !producers[p].Dropped?
  }

  ghost function Fresh(producers: map<nat, Producer>): set<nat> {
    set p | p in producers && producers[p].Inside?
  }

  ghost function ProducersRank(producers: map<nat, Producer>): nat {
    9 * |producers| + |Early(producers)| + |Fresh(producers)|
  }

  function DebouncerRank(d: Debouncer): nat {
    match d
    case Idle => 0
    case Armed(fired) => if fired then 2 else 3
    case Flushing(_) => 1
  }

  function PersisterRank(p: Persister): nat {
    match p
    case Waiting => 0
    case Taken(_) => 2
    case Saving(_) => 1
  }

  /** A bound on the steps left if nothing changes any more. */
  ghost function Rank(s: State): nat {
    ProducersRank(s.producers) + 8 * |s.ch| + 4 * |FlushLeft(s)| + 3 * |s.queue|
    + DebouncerRank(s.debouncer) + PersisterRank(s.persister)
  }

  lemma SetRemove<T>(a: set<T>, x: T)
    ensures |a - {x}| == if x in a then |a| - 1 else |a|
  {
    if x in a { assert a == (a - {x}) + {x}; } else { assert a - {x} == a; }
  }

  lemma MapSizes(producers: map<nat, Producer>, p: nat, x: Producer)
    requires p in producers
    ensures |producers - {p}| == |producers| - 1 && |producers[p := x]| == |producers|
  {
    var less, more := producers - {p}, producers[p := x];
    assert less.Keys == producers.Keys - {p} && more.Keys == producers.Keys;
    assert |producers.Keys| == |producers| && |less.Keys| == |less| && |more.Keys| == |more|;
  }

  lemma ProducerLeaves(producers: map<nat, Producer>, p: nat)
    requires p in producers
    ensures ProducersRank(producers - {p}) + (if producers[p].Inside? then 11 else 9) <= ProducersRank(producers)
  {
    MapSizes(producers, p, producers[p]);
    assert Early(producers - {p}) == Early(producers) - {p};
    assert Fresh(producers - {p}) == Fresh(producers) - {p};
    SetRemove(Early(producers), p);
    SetRemove(Fresh(producers), p);
  }

  lemma ProducerMeetsFull(producers: map<nat, Producer>, p: nat)
    requires p in producers && producers[p].Inside?
    ensures ProducersRank(producers[p := Full(producers[p].r)]) + 1 == ProducersRank(producers)
  {
    var next := Full(producers[p].r);
    MapSizes(producers, p, next);
    assert Early(producers[p := next]) == Early(producers);
    assert Fresh(producers[p := next]) == Fresh(producers) - {p};
    SetRemove(Fresh(producers), p);
  }

  lemma ProducerDrops(producers: map<nat, Producer>, p: nat)
    requires p in producers && producers[p].Full?
    ensures ProducersRank(producers[p := Dropped(producers[p].r)]) + 1 == ProducersRank(producers)
  {
    var next := Dropped(producers[p].r);
    MapSizes(producers, p, next);
    assert Early(producers[p := next]) == Early(producers) - {p};
    assert Fresh(producers[p := next]) == Fresh(producers);
    SetRemove(Early(producers), p);
  }

  lemma ProducerRankFalls(s: State, l: Label, c: Capacities)
    requires Enabled(s, l, c) && (l.FirstTry? || l.DropOldest? || l.SecondTry?)
    ensures Rank(Next(s, l, c)) < Rank(s)
  {
    ProducerLeaves(s.producers, l.p);
    if l.FirstTry? { ProducerMeetsFull(s.producers, l.p); }
    if l.DropOldest? { ProducerDrops(s.producers, l.p); }
    hide ProducersRank;
  }

  lemma KeysGrow(pending: map<string, Request>, i: string, r: Request)
    ensures |pending[i := r].Keys| <= |pending.Keys| + 1
  {
    assert pending[i := r].Keys == pending.Keys + {i};
  }

  lemma ReceiveRankFalls(s: State, c: Capacities)
    requires Shape(s, c) && Enabled(s, Receive, c)
    ensures Rank(Next(s, Receive, c)) < Rank(s)
  {
    var t, r := Next(s, Receive, c), s.ch[0];
    KeysGrow(s.pending, r.iface, r);
    hide ProducersRank, Shape, Enabled;
    assert |t.ch| == |s.ch| - 1 && |FlushLeft(t)| <= |FlushLeft(s)| + 1;
    assert t.producers == s.producers && t.queue == s.queue && t.persister == s.persister;
  }

  lemma SendRankFalls(s: State, i: string, c: Capacities)
    requires Enabled(s, Send(i), c)
    ensures Rank(Next(s, Send(i), c)) < Rank(s)
  {
    var t := Next(s, Send(i), c);
    SetRemove(s.debouncer.todo, i);
    assert |FlushLeft(t)| == |FlushLeft(s)| - 1 && |t.queue| == |s.queue| + 1;
    assert t.producers == s.producers && t.ch == s.ch && t.persister == s.persister;
    hide ProducersRank, Next, Enabled, FlushLeft;
  }

  lemma ConsumerRankFalls(s: State, l: Label, c: Capacities)
    requires Shape(s, c) && Enabled(s, l, c)
    requires !(l.Change? || l.FirstTry? || l.DropOldest? || l.SecondTry? || l.Receive? || l.Send?)
    ensures Rank(Next(s, l, c)) < Rank(s)
  {
    if l.EndFlush? { assert FlushLeft(Next(s, l, c)) == {}; }
    hide ProducersRank;
  }

  /** Without new changes every step brings quiescence nearer. */
  lemma RankFalls(s: State, l: Label, c: Capacities)
    requires Shape(s, c) && Enabled(s, l, c) && !l.Change?
    ensures Rank(Next(s, l, c)) < Rank(s)
  {
    if l.FirstTry? || l.DropOldest? || l.SecondTry? {
      ProducerRankFalls(s, l, c);
    } else if l.Receive? {
      ReceiveRankFalls(s, c);
    } else if l.Send? {
      SendRankFalls(s, l.iface, c);
    } else {
      ConsumerRankFalls(s, l, c);
    }
  }

  /** Nothing is left to do. */
  predicate Quiet(s: State) {
    && s.ch == [] && s.pending == map[] && s.queue == []
    && s.debouncer.Idle? && s.persister.Waiting? && s.producers == map[]
  }

  /** The protocol never deadlocks: outside quiescence some step other than a change can be taken. */
  lemma NoDeadlock(s: State, c: Capacities) returns (l: Label)
    requires c.Valid() && Shape(s, c) && !Quiet(s)
    ensures !l.Change? && Enabled(s, l, c)
  {
    if s.producers != map[] {
      var p :| p in s.producers;
      l := match s.producers[p]
           case Inside(_) => FirstTry(p)
           case Full(_) => DropOldest(p)
           case Dropped(_) => SecondTry(p);
    } else if !s.persister.Waiting? {
      l := if s.persister.Taken? then StartSave else EndSave;
    } else if s.queue != [] {
      l := Take;
    } else {
      match s.debouncer
      case Idle => l := Receive;
      case Armed(fired) => l := if fired then StartFlush else Fire;
      case Flushing(todo) =>
        if todo == {} {
          l := EndFlush;
        } else {
          var i :| i in todo;
          l := Send(i);
        }
    }
  }

  predicate NoChange(labels: seq<Label>) {
    forall l | l in labels :: !l.Change?
  }

  /** From any reachable state, a run without further changes is at most Rank long. */
  lemma {:induction false} BoundedTail(before: seq<Label>, tail: seq<Label>, c: Capacities)
    requires c.Valid() && Run(before + tail, c).Some? && NoChange(tail)
    ensures Run(before, c).Some? && |tail| + Rank(Run(before + tail, c).value) <= Rank(Run(before, c).value)
  {
    hide Rank, Next, Enabled, Shape, NothingLost;
    if tail == [] {
      assert before + tail == before;
    } else {
      var n := |tail| - 1;
      assert (before + tail)[..|before + tail| - 1] == before + tail[..n];
      BoundedTail(before, tail[..n], c);
      RunKeepsInv(before + tail[..n], c);
      assert tail[n] in tail;
      RankFalls(Run(before + tail[..n], c).value, tail[n], c);
    }
  }

  /** Where a run can only go on by a new change, everything not lost has been saved. */
  lemma QuietMeansSaved(labels: seq<Label>, c: Capacities, i: string)
    requires c.Valid() && Run(labels, c).Some?
    requires forall l: Label | !l.Change? :: !Enabled(Run(labels, c).value, l, c)
    ensures var s := Run(labels, c).value; Quiet(s) && (i !in s.lost ==> s.Saved(i) == s.Version(i))
  {
    RunKeepsInv(labels, c);
    var s := Run(labels, c).value;
    if !Quiet(s) { var _ := NoDeadlock(s, c); }
    assert s.Saved(i) <= s.Version(i);
  }

  /** With one interface the debouncer saves every change once the changes stop. */
  lemma EventuallySaved(before: seq<Label>, tail: seq<Label>, c: Capacities, i: string)
    requires c.Valid() && Run(before + tail, c).Some? && NoChange(tail)
    requires forall l | l in before && l.Change? :: l.r.iface == i
    requires forall l: Label | !l.Change? :: !Enabled(Run(before + tail, c).value, l, c)
    ensures Run(before, c).Some? && |tail| <= Rank(Run(before, c).value)
    ensures var s := Run(before + tail, c).value; s.Saved(i) == s.Version(i)
  {
    BoundedTail(before, tail, c);
    OneInterfaceRun(before + tail, c, i);
    QuietMeansSaved(before + tail, c, i);
  }

  /** Left alone, every run reaches quiescence. */
  lemma {:induction false} ReachesQuiet(labels: seq<Label>, c: Capacities) returns (tail: seq<Label>)
    requires c.Valid() && Run(labels, c).Some?
    ensures NoChange(tail) && Run(labels + tail, c).Some? && Quiet(Run(labels + tail, c).value)
    decreases Rank(Run(labels, c).value)
  {
    hide Rank, Next, Enabled, Shape, NothingLost;
    var s := Run(labels, c).value;
    tail := [];
    assert labels + tail == labels;
    if !Quiet(s) {
      RunKeepsInv(labels, c);
      var l := NoDeadlock(s, c);
      RankFalls(s, l, c);
      RunAppend(labels, l, c);
      var rest := ReachesQuiet(labels + [l], c);
      tail := [l] + rest;
      assert labels + tail == labels + [l] + rest;
    }
  }

  lemma RunAppend(labels: seq<Label>, l: Label, c: Capacities)
    requires Run(labels, c).Some? && Enabled(Run(labels, c).value, l, c)
    ensures Run(labels + [l], c) == Some(Next(Run(labels, c).value, l, c))
  {
    assert (labels + [l])[..|labels|] == labels;
  }

  // ---------------------------------------------------------------- how a save gets lost

  /** A change and its cover part only when another interface's producer takes the oldest request
      out, or when a producer finds the channel full of other interfaces' requests twice. */
  lemma LossNeedsAnother(s: State, l: Label, c: Capacities, i: string)
    requires c.Valid() && Shape(s, c) && Enabled(s, l, c) && Covered(s, i)
    requires var t := Next(s, l, c); t.Saved(i) < t.Version(i) && !Covered(t, i)
    ensures
      || (l.DropOldest? && s.ch != [] && s.ch[0].iface == i && s.producers[l.p].r.iface != i)
      || (l.SecondTry? && s.producers[l.p].r.iface == i && |s.ch| == c.ch && !Has(s.ch, i))
  {
    Unlost(s, l, c, i);
    hide Shape;
    var s0 := s.(lost := {});
    if l.Change? || l.FirstTry? || l.DropOldest? || l.SecondTry? {
      ProducerKeepsCover(s0, l, c, i);
    } else {
      ConsumerKeepsCover(s0, l, c, i);
    }
  }

  lemma Unlost(s: State, l: Label, c: Capacities, i: string)
    requires Shape(s, c) && Enabled(s, l, c) && Covered(s, i)
    ensures var s0 := s.(lost := {}); Shape(s0, c) && Enabled(s0, l, c) && Covered(s0, i)
  {
    var s0 := s.(lost := {});
    forall j ensures s0.Saved(j) <= s0.Version(j) {
      assert s.Saved(j) <= s.Version(j);
    }
  }

  /** What is neither saved nor covered stays so until the interface changes again. */
  lemma {:induction false} LossIsFinal(before: seq<Label>, tail: seq<Label>, c: Capacities, i: string)
    requires c.Valid() && Run(before + tail, c).Some? && NoChange(tail) && Run(before, c).Some?
    requires var s := Run(before, c).value; s.Saved(i) < s.Version(i) && !Covered(s, i)
    ensures var s := Run(before + tail, c).value; s.Saved(i) < s.Version(i) && !Covered(s, i)
  {
    if tail == [] {
      assert before + tail == before;
    } else {
      var n := |tail| - 1;
      assert (before + tail)[..|before + tail| - 1] == before + tail[..n];
      LossIsFinal(before, tail[..n], c, i);
      RunKeepsInv(before + tail[..n], c);
      assert tail[n] in tail;
      StaysUncovered(Run(before + tail[..n], c).value, tail[n], c, i);
    }
  }

  lemma StaysUncovered(s: State, l: Label, c: Capacities, i: string)
    requires Shape(s, c) && Enabled(s, l, c) && !l.Change? && !Covered(s, i) && s.Saved(i) < s.Version(i)
    ensures var t := Next(s, l, c); !Covered(t, i) && t.Saved(i) < t.Version(i)
  {
    if l.FirstTry? || l.DropOldest? || l.SecondTry? {
      var r := s.producers[l.p].r;
      OthersWork(s.producers, l.p, Full(r), i);
      OthersWork(s.producers, l.p, Dropped(r), i);
      HasAppend(s.ch, r, i);
    }
    if s.ch != [] { HasTail(s.ch, i); }
    if s.queue != [] { HasTail(s.queue, i); }
    if l.Send? { HasAppend(s.queue, s.pending[l.iface], i); }
  }

  /** One change of a, then k changes of b, each put into the channel at once. */
  lemma {:induction false} Fill(c: Capacities, a: Request, b: Request, k: nat) returns (labels: seq<Label>)
    requires c.Valid() && k < c.ch && a.iface != b.iface
    ensures Run(labels, c).Some?
    ensures
      var s := Run(labels, c).value;
      && s.ch == [a] + seq(k, _ => b) && s.pending == map[] && s.queue == []
      && s.debouncer.Idle? && s.persister.Waiting?
      && s.producers == map[] && s.Version(a.iface) == 1 && s.Saved(a.iface) == 0
  {
    var r := if k == 0 then a else b;
    labels := [];
    if k > 0 { labels := Fill(c, a, b, k - 1); }
    RunAppend(labels, Change(0, r), c);
    assert Run(labels + [Change(0, r)], c).value.producers == map[0 := Inside(r)];
    RunAppend(labels + [Change(0, r)], FirstTry(0), c);
    labels := labels + [Change(0, r)] + [FirstTry(0)];
    assert Run(labels, c).value.ch == [a] + seq(k, _ => b);
  }

  /** With two interfaces a save can be lost for good, whatever the capacities: some run ends with
      nothing left to do and the first interface's change unsaved. */
  lemma LossHappens(c: Capacities, a: Request, b: Request) returns (labels: seq<Label>)
    requires c.Valid() && a.iface != b.iface
    ensures Run(labels, c).Some?
    ensures var s := Run(labels, c).value; Quiet(s) && s.Saved(a.iface) < s.Version(a.iface)
  {
    var filled := Fill(c, a, b, c.ch - 1);
    var l1 := filled + [Change(0, b)];
    RunAppend(filled, Change(0, b), c);
    var l2 := l1 + [FirstTry(0)];
    RunAppend(l1, FirstTry(0), c);
    var l3 := l2 + [DropOldest(0)];
    RunAppend(l2, DropOldest(0), c);
    var s := Run(l3, c).value;
    assert s.producers == map[0 := Dropped(b)];
    assert s.ch == seq(c.ch - 1, _ => b);
    assert !Covered(s, a.iface);
    var tail := ReachesQuiet(l3, c);
    LossIsFinal(l3, tail, c, a.iface);
    labels := l3 + tail;
  }
}
