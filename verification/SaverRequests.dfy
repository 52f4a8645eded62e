/** Which request the debouncer of src/esa/updateconf.go saves: one that a change handed in, and in
    the end the last one of its interface that entered the channel. */
module SaverRequests {
  import opened Common
  import opened Saver

  /** The request a step puts into the channel. */
  function Put(s: State, l: Label, c: Capacities): Option<Request>
    requires Enabled(s, l, c)
  {
    if (l.FirstTry? || l.SecondTry?) && |s.ch| < c.ch then Some(s.producers[l.p].r) else None
  }

  /** The request a step starts to save. */
  function Save(s: State, l: Label, c: Capacities): Option<Request>
    requires Enabled(s, l, c)
  {
    if l.StartSave? then Some(s.persister.r) else None
  }

  function Newer(r: Option<Request>, before: Option<Request>, i: string): Option<Request> {
    if r.Some? && r.value.iface == i then r else before
  }

  /** The last request of an interface that entered the channel in a run. */
  function LastPut(labels: seq<Label>, c: Capacities, i: string): Option<Request>
    requires Run(labels, c).Some?
  {
    if labels == [] then None else
    var n := |labels| - 1;
    Newer(Put(Run(labels[..n], c).value, labels[n], c), LastPut(labels[..n], c, i), i)
  }

  /** The last request of an interface whose save a run started. */
  function LastSaved(labels: seq<Label>, c: Capacities, i: string): Option<Request>
    requires Run(labels, c).Some?
  {
    if labels == [] then None else
    var n := |labels| - 1;
    Newer(Save(Run(labels[..n], c).value, labels[n], c), LastSaved(labels[..n], c, i), i)
  }

  // ---------------------------------------------------------------- where a request comes from

  ghost predicate Asked(labels: seq<Label>, r: Request) {
    exists p :: Change(p, r) in labels
  }

  /** Whatever is on its way was handed in by a change. */
  ghost predicate AllAsked(s: State, labels: seq<Label>) {
    && (forall r | r in s.ch || r in s.queue || r in s.pending.Values :: Asked(labels, r))
    && (forall p | p in s.producers :: Asked(labels, s.producers[p].r))
    && (!s.persister.Waiting? ==> Asked(labels, s.persister.r))
  }

  lemma StillAsked(labels: seq<Label>, more: seq<Label>, r: Request)
    requires Asked(labels, r)
    ensures Asked(labels + more, r)
  {
    var p :| Change(p, r) in labels;
    assert Change(p, r) in labels + more;
  }

  lemma StepKeepsAsked(s: State, l: Label, c: Capacities, labels: seq<Label>)
    requires Enabled(s, l, c) && AllAsked(s, labels)
    ensures AllAsked(Next(s, l, c), labels + [l])
  {
    forall r | Asked(labels, r) ensures Asked(labels + [l], r) {
      StillAsked(labels, [l], r);
    }
    if l.Change? { assert Change(l.p, l.r) in labels + [l]; }
    if l.Receive? {
      assert s.ch[0] in s.ch;
      assert forall r | r in s.pending[s.ch[0].iface := s.ch[0]].Values :: r == s.ch[0] || r in s.pending.Values;
    }
  }

  lemma {:induction false} RunKeepsAsked(labels: seq<Label>, c: Capacities)
    requires Run(labels, c).Some?
    ensures AllAsked(Run(labels, c).value, labels)
  {
    hide Enabled, Next;
    if labels != [] {
      var n := |labels| - 1;
      RunKeepsAsked(labels[..n], c);
      assert labels == labels[..n] + [labels[n]];
      StepKeepsAsked(Run(labels[..n], c).value, labels[n], c, labels[..n]);
    }
  }

  /** What is saved, interface and path, is what some change of the run asked for. */
  lemma {:induction false} SavedWasAsked(labels: seq<Label>, c: Capacities, i: string)
    requires Run(labels, c).Some? && LastSaved(labels, c, i).Some?
    ensures LastSaved(labels, c, i).value.iface == i && Asked(labels, LastSaved(labels, c, i).value)
  {
    var n := |labels| - 1;
    assert labels == labels[..n] + [labels[n]];
    RunKeepsAsked(labels[..n], c);
    var r := LastSaved(labels, c, i).value;
    if LastSaved(labels[..n], c, i) == Some(r) { SavedWasAsked(labels[..n], c, i); }
    StillAsked(labels[..n], [labels[n]], r);
  }

  // ---------------------------------------------------------------- the last one wins

  function LastOf(rs: seq<Request>, i: string): (r: Option<Request>)
    ensures (r.Some? <==> Has(rs, i)) && (r.Some? ==> r.value.iface == i)
  {
    if rs == [] then None else
    var n := |rs| - 1;
    assert rs == rs[..n] + [rs[n]];
    HasAppend(rs[..n], rs[n], i);
    if rs[n].iface == i then Some(rs[n]) else LastOf(rs[..n], i)
  }

  lemma LastOfAppend(rs: seq<Request>, r: Request, i: string)
    ensures LastOf(rs + [r], i) == Newer(Some(r), LastOf(rs, i), i)
  {
    assert (rs + [r])[..|rs|] == rs;
  }

  lemma {:induction false} LastOfTail(rs: seq<Request>, i: string)
    requires rs != []
    ensures LastOf(rs, i) == Newer(LastOf(rs[1..], i), Newer(Some(rs[0]), None, i), i)
  {
    var n := |rs| - 1;
    if n > 0 {
      assert rs[1..][..n - 1] == rs[..n][1..];
      LastOfTail(rs[..n], i);
    }
  }

  /** The newest request of an interface behind the channel. */
  function Behind(s: State, saved: Option<Request>, i: string): Option<Request> {
    if i in s.pending && (s.debouncer.Flushing? ==> i in s.debouncer.todo) then Some(s.pending[i])
    else if Has(s.queue, i) then LastOf(s.queue, i)
    else if s.persister.Taken? && s.persister.r.iface == i then Some(s.persister.r)
    else saved
  }

  /** A producer of the interface has taken a request out and not yet put its own in. */
  ghost predicate Replacing(producers: map<nat, Producer>, i: string) {
    exists p :: p in producers && producers[p].Dropped? && producers[p].r.iface == i
  }

  /** Requests of one interface keep their order on the way from the channel to the save. */
  ghost predicate InOrder(s: State, put: Option<Request>, saved: Option<Request>, i: string) {
    || i in s.lost
    || (Has(s.ch, i) && LastOf(s.ch, i) == put)
    || (!Has(s.ch, i) && (Replacing(s.producers, i) || Behind(s, saved, i) == put))
  }

  /** A producer that moves on without having taken a request out, or for another interface. */
  lemma OthersReplace(producers: map<nat, Producer>, p: nat, next: Producer, i: string)
    requires Replacing(producers, i)
    requires p in producers && producers[p].Dropped? ==> producers[p].r.iface != i
    ensures Replacing(producers - {p}, i) && Replacing(producers[p := next], i)
  {
    var q :| q in producers && producers[q].Dropped? && producers[q].r.iface == i;
    var less, more := producers - {p}, producers[p := next];
    assert q != p;
    assert q in less && less[q] == producers[q];
    assert q in more && more[q] == producers[q];
  }

  /** A producer enters, meets a full channel or an empty one. */
  lemma StandingAside(s: State, l: Label, c: Capacities, put: Option<Request>, saved: Option<Request>, i: string)
    requires Enabled(s, l, c) && InOrder(s, put, saved, i)
    requires l.Change? || (l.FirstTry? && |s.ch| >= c.ch) || (l.DropOldest? && s.ch == [])
    ensures InOrder(Next(s, l, c), put, saved, i)
  {
    var r := if l.Change? then l.r else s.producers[l.p].r;
    if Replacing(s.producers, i) {
      OthersReplace(s.producers, l.p, Inside(r), i);
      OthersReplace(s.producers, l.p, Full(r), i);
      OthersReplace(s.producers, l.p, Dropped(r), i);
    }
  }

  lemma Entering(s: State, l: Label, c: Capacities, put: Option<Request>, saved: Option<Request>, i: string)
    requires Enabled(s, l, c) && InOrder(s, put, saved, i)
    requires (l.FirstTry? || l.SecondTry?) && |s.ch| < c.ch
    ensures InOrder(Next(s, l, c), Newer(Put(s, l, c), put, i), saved, i)
  {
    var r := s.producers[l.p].r;
    assert Next(s, l, c) == s.(ch := s.ch + [r], producers := s.producers - {l.p});
    hide Next;
    if r.iface == i { EnteringOwn(s, r, l.p, put, saved, i); } else { EnteringOther(s, r, l.p, put, saved, i); }
    hide InOrder;
  }

  lemma EnteringOwn(s: State, r: Request, p: nat, put: Option<Request>, saved: Option<Request>, i: string)
    requires r.iface == i
    ensures InOrder(s.(ch := s.ch + [r], producers := s.producers - {p}), Some(r), saved, i)
  {
    LastOfAppend(s.ch, r, i);
    HasAppend(s.ch, r, i);
    hide LastOf, Has, Behind, Replacing;
  }

  lemma EnteringOther(s: State, r: Request, p: nat, put: Option<Request>, saved: Option<Request>, i: string)
    requires InOrder(s, put, saved, i) && r.iface != i && p in s.producers && s.producers[p].r == r
    ensures InOrder(s.(ch := s.ch + [r], producers := s.producers - {p}), put, saved, i)
  {
    LastOfAppend(s.ch, r, i);
    HasAppend(s.ch, r, i);
    if Replacing(s.producers, i) { OthersReplace(s.producers, p, Full(r), i); }
    SameBehind(s, s.(ch := s.ch + [r], producers := s.producers - {p}), saved, i);
    hide LastOf, Has, Replacing, Behind;
  }

  lemma SameBehind(s: State, t: State, saved: Option<Request>, i: string)
    requires t.pending == s.pending && t.debouncer == s.debouncer && t.queue == s.queue && t.persister == s.persister
    ensures Behind(t, saved, i) == Behind(s, saved, i)
  {
    hide LastOf, Has;
  }

  lemma GivingUp(s: State, l: Label, c: Capacities, put: Option<Request>, saved: Option<Request>, i: string)
    requires Enabled(s, l, c) && InOrder(s, put, saved, i)
    requires l.SecondTry? && |s.ch| >= c.ch
    ensures InOrder(Next(s, l, c), put, saved, i)
  {
    var r := s.producers[l.p].r;
    if Replacing(s.producers, i) && r.iface != i { OthersReplace(s.producers, l.p, Full(r), i); }
  }

  lemma TakingOut(s: State, l: Label, c: Capacities, put: Option<Request>, saved: Option<Request>, i: string)
    requires Enabled(s, l, c) && InOrder(s, put, saved, i)
    requires l.DropOldest? && s.ch != []
    ensures InOrder(Next(s, l, c), put, saved, i)
  {
    var r := s.producers[l.p].r;
    if Replacing(s.producers, i) { OthersReplace(s.producers, l.p, Dropped(r), i); }
    if r.iface == i { NowReplacing(s.producers, l.p, r); }
    LastOfTail(s.ch, i);
    HasTail(s.ch, i);
  }

  lemma NowReplacing(producers: map<nat, Producer>, p: nat, r: Request)
    ensures Replacing(producers[p := Dropped(r)], r.iface)
  {
    assert producers[p := Dropped(r)][p] == Dropped(r);
  }

  lemma Receiving(s: State, c: Capacities, put: Option<Request>, saved: Option<Request>, i: string)
    requires Shape(s, c) && Enabled(s, Receive, c) && InOrder(s, put, saved, i)
    ensures InOrder(Next(s, Receive, c), put, saved, i)
  {
    LastOfTail(s.ch, i);
    HasTail(s.ch, i);
    hide Shape;
  }

  /** The debouncer and the persister behind the channel. */
  lemma Forwarding(s: State, l: Label, c: Capacities, put: Option<Request>, saved: Option<Request>, i: string)
    requires Shape(s, c) && Enabled(s, l, c) && InOrder(s, put, saved, i)
    requires !(l.Change? || l.FirstTry? || l.DropOldest? || l.SecondTry? || l.Receive?)
    ensures InOrder(Next(s, l, c), put, Newer(Save(s, l, c), saved, i), i)
  {
    BehindKept(s, l, c, saved, i);
    hide Behind, Has, LastOf, Replacing, Shape;
  }

  lemma BehindKept(s: State, l: Label, c: Capacities, saved: Option<Request>, i: string)
    requires Shape(s, c) && Enabled(s, l, c)
    requires !(l.Change? || l.FirstTry? || l.DropOldest? || l.SecondTry? || l.Receive?)
    ensures Behind(Next(s, l, c), Newer(Save(s, l, c), saved, i), i) == Behind(s, saved, i)
  {
    if l.Send? {
      BehindSend(s, l.iface, c, saved, i);
    } else if l.Take? {
      LastOfTail(s.queue, i);
      HasTail(s.queue, i);
    }
    hide LastOf, Has;
  }

  lemma BehindSend(s: State, j: string, c: Capacities, saved: Option<Request>, i: string)
    requires Shape(s, c) && Enabled(s, Send(j), c)
    ensures Behind(Next(s, Send(j), c), saved, i) == Behind(s, saved, i)
  {
    assert s.pending[j].iface == j;
    LastOfAppend(s.queue, s.pending[j], i);
    HasAppend(s.queue, s.pending[j], i);
    hide LastOf, Has, Shape;
  }

  lemma StepKeepsOrder(s: State, l: Label, c: Capacities, put: Option<Request>, saved: Option<Request>, i: string)
    requires Shape(s, c) && Enabled(s, l, c) && InOrder(s, put, saved, i)
    ensures InOrder(Next(s, l, c), Newer(Put(s, l, c), put, i), Newer(Save(s, l, c), saved, i), i)
  {
    if (l.FirstTry? || l.SecondTry?) && |s.ch| < c.ch { Entering(s, l, c, put, saved, i); }
    else if l.SecondTry? { GivingUp(s, l, c, put, saved, i); }
    else if l.DropOldest? && s.ch != [] { TakingOut(s, l, c, put, saved, i); }
    else if l.Change? || l.FirstTry? || l.DropOldest? { StandingAside(s, l, c, put, saved, i); }
    else if l.Receive? { Receiving(s, c, put, saved, i); }
    else { Forwarding(s, l, c, put, saved, i); }
    hide InOrder, Next, Enabled, Shape;
  }

  lemma {:induction false} RunKeepsOrder(labels: seq<Label>, c: Capacities, i: string)
    requires c.Valid() && Run(labels, c).Some?
    ensures InOrder(Run(labels, c).value, LastPut(labels, c, i), LastSaved(labels, c, i), i)
  {
    hide Enabled, Next, Shape, InOrder;
    if labels == [] {
      EmptyInOrder(i);
    } else {
      var n := |labels| - 1;
      var s, l := Run(labels[..n], c).value, labels[n];
      RunKeepsInv(labels[..n], c);
      RunKeepsOrder(labels[..n], c, i);
      StepKeepsOrder(s, l, c, LastPut(labels[..n], c, i), LastSaved(labels[..n], c, i), i);
    }
  }

  lemma EmptyInOrder(i: string)
    ensures InOrder(START, None, None, i)
  {
  }

  /** At rest the last request saved for an interface, path included, is the last one that entered
      the channel, unless the interface lost a request to another. */
  lemma LastPutIsSaved(labels: seq<Label>, c: Capacities, i: string)
    requires c.Valid() && Run(labels, c).Some? && Quiet(Run(labels, c).value)
    requires i !in Run(labels, c).value.lost
    ensures LastSaved(labels, c, i) == LastPut(labels, c, i)
  {
    RunKeepsOrder(labels, c, i);
  }
}
