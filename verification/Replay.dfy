/** Signed requests against the replay cache: the nonce and `now` flow of ServeHTTP in
    tincver/http_.go.  Whether password and signature verify is an input. */
module Replay {
  import opened Common
  import opened Text
  import opened Validation
  import C = NonceCache

  datatype Event =
    | Arrive(form: AuthRequest, now: int, verified: bool)
    | Sweep(now: int)

  datatype Admission = Admission(request: AuthRequest, stamp: int)

  datatype Server = Server(nonces: C.Cache, admitted: seq<Admission>)

  /** The unicode table of unsafe runes, as a parameter of the whole run. */
  type Unsafe = char -> bool

  function Step(s: Server, e: Event, l: C.Limits, unsafe: Unsafe): Server {
    match e
    case Sweep(now) => s.(nonces := C.Keep(s.nonces, now - l.ttl))
    case Arrive(form, now, verified) =>
      var (r, verdict) := ParseAuthRequest(form, now, unsafe);
      if verdict.Some? || !verified then s else
      var (m, ok) := C.Check(s.nonces, NonceKey(r), now, l);
      Server(m, if ok then s.admitted + [Admission(r, now)] else s.admitted)
  }

  function Run(events: seq<Event>, l: C.Limits, unsafe: Unsafe): Server {
    if events == [] then Server(map[], []) else
    Step(Run(events[..|events| - 1], l, unsafe), events[|events| - 1], l, unsafe)
  }

  predicate Ordered(events: seq<Event>) {
    forall i, j | 0 <= i < j < |events| :: events[i].now <= events[j].now
  }

  // ---------------------------------------------------------------- the run seen by the cache

  /** The cache calls a run makes: rejected and unverified requests make none. */
  function Calls(events: seq<Event>, unsafe: Unsafe): seq<C.Event> {
    if events == [] then [] else
    var init, e := Calls(events[..|events| - 1], unsafe), events[|events| - 1];
    match e
    case Sweep(now) => init + [C.Sweep(now)]
    case Arrive(form, now, verified) =>
      var (r, verdict) := ParseAuthRequest(form, now, unsafe);
      if verdict.Some? || !verified then init else init + [C.Request(NonceKey(r), now)]
  }

  function Keys(admitted: seq<Admission>): seq<C.Acceptance> {
    seq(|admitted|, i requires 0 <= i < |admitted| => C.Acceptance(NonceKey(admitted[i].request), admitted[i].stamp))
  }

  lemma {:induction false} RunIsCacheRun(events: seq<Event>, l: C.Limits, unsafe: Unsafe)
    ensures var s, c := Run(events, l, unsafe), C.Run(Calls(events, unsafe), l);
      s.nonces == c.nonces && Keys(s.admitted) == c.history
  {
    if events != [] {
      var init, e := events[..|events| - 1], events[|events| - 1];
      RunIsCacheRun(init, l, unsafe);
      var calls, all := Calls(init, unsafe), Calls(events, unsafe);
      if all != calls {
        assert all[..|all| - 1] == calls;
        var s, t := Run(init, l, unsafe), Run(events, l, unsafe);
        if t.admitted != s.admitted {
          KeysAppend(s.admitted, t.admitted[|s.admitted|]);
        }
      }
    }
  }

  lemma KeysAppend(a: seq<Admission>, x: Admission)
    ensures Keys(a + [x]) == Keys(a) + [C.Acceptance(NonceKey(x.request), x.stamp)]
  {
  }

  lemma {:induction false} CallsOrdered(events: seq<Event>, unsafe: Unsafe)
    requires Ordered(events)
    ensures C.Ordered(Calls(events, unsafe))
    ensures forall c | c in Calls(events, unsafe) :: events != [] && c.now <= events[|events| - 1].now
  {
    if events != [] {
      var init := events[..|events| - 1];
      CallsOrdered(init, unsafe);
      var calls := Calls(init, unsafe);
      forall i | 0 <= i < |calls| ensures calls[i].now <= events[|events| - 1].now {
        assert calls[i] in calls;
      }
    }
  }

  lemma {:induction false} AdmittedAreValid(events: seq<Event>, l: C.Limits, unsafe: Unsafe)
    ensures forall a | a in Run(events, l, unsafe).admitted ::
      WellFormed(a.request) && ValidateTimestamp(a.request.timestamp, a.stamp).1.None?
  {
    if events != [] {
      var init, e := events[..|events| - 1], events[|events| - 1];
      AdmittedAreValid(init, l, unsafe);
      if e.Arrive? && ParseAuthRequest(e.form, e.now, unsafe).1.None? {
        ParsedIsWellFormed(e.form, e.now, unsafe);
      }
    }
  }

  // ---------------------------------------------------------------- where admissions come from

  /** The event is a verified request that parses to the admission's request at its stamp. */
  ghost predicate Admits(e: Event, a: Admission, unsafe: Unsafe) {
    && e.Arrive? && e.verified && e.now == a.stamp
    && ParseAuthRequest(e.form, e.now, unsafe) == (a.request, None)
  }

  /** Every admission of a run is a verified request of that run, no request is admitted for two
      events, and the admissions come in the order of their events. */
  lemma {:induction false} AdmissionsAreVerified(events: seq<Event>, l: C.Limits, unsafe: Unsafe) returns (at: seq<nat>)
    ensures var admitted := Run(events, l, unsafe).admitted;
      && |at| == |admitted|
      && (forall i | 0 <= i < |at| :: at[i] < |events| && Admits(events[at[i]], admitted[i], unsafe))
      && (forall i, j | 0 <= i < j < |at| :: at[i] < at[j])
  {
    at := [];
    if events != [] {
      var n := |events| - 1;
      at := AdmissionsAreVerified(events[..n], l, unsafe);
      StepAdmits(Run(events[..n], l, unsafe), events[n], l, unsafe);
      hide Step, Admits;
      if Run(events, l, unsafe).admitted != Run(events[..n], l, unsafe).admitted { at := at + [n]; }
    }
  }

  lemma StepAdmits(s: Server, e: Event, l: C.Limits, unsafe: Unsafe)
    ensures var t := Step(s, e, l, unsafe);
      || t.admitted == s.admitted
      || (|t.admitted| == |s.admitted| + 1 && t.admitted[..|s.admitted|] == s.admitted
          && Admits(e, t.admitted[|s.admitted|], unsafe))
  {
    hide ParseAuthRequest, C.Check, C.Keep;
  }

  lemma {:induction false} RunGoesOn(before: seq<Event>, other: seq<Event>, after: seq<Event>, l: C.Limits,
                                      unsafe: Unsafe)
    requires Run(before, l, unsafe) == Run(other, l, unsafe)
    ensures Run(before + after, l, unsafe) == Run(other + after, l, unsafe)
  {
    if after == [] {
      assert before + after == before && other + after == other;
    } else {
      hide Step;
      var n := |after| - 1;
      RunGoesOn(before, other, after[..n], l, unsafe);
      assert (before + after)[..|before + after| - 1] == before + after[..n];
      assert (other + after)[..|other + after| - 1] == other + after[..n];
    }
  }

  /** A request whose password or signature does not verify leaves no trace: a run with it anywhere
      is the run without it, nonces included. */
  lemma UnverifiedLeavesNoTrace(before: seq<Event>, form: AuthRequest, now: int, after: seq<Event>,
                                l: C.Limits, unsafe: Unsafe)
    ensures Run(before + [Arrive(form, now, false)] + after, l, unsafe) == Run(before + after, l, unsafe)
  {
    var e := Arrive(form, now, false);
    assert (before + [e])[..|before|] == before;
    RunGoesOn(before + [e], before, after, l, unsafe);
  }

  // ---------------------------------------------------------------- no replay

  /** The identity of a signed request for replay purposes. */
  predicate SameRequest(a: AuthRequest, b: AuthRequest) {
    a.username == b.username && a.timestamp == b.timestamp && a.nonce == b.nonce
  }

  function Instant(r: AuthRequest): int {
    var s := TrimSpace(r.timestamp);
    if AllDigits(s) then Value(s) * SECOND else 0
  }

  /** With ttl twice the skew, a signed request is admitted a second time only at the two exact
      ends of its window. */
  lemma NoReplay(events: seq<Event>, l: C.Limits, unsafe: Unsafe, i: nat, j: nat)
    requires Ordered(events) && l.ttl == 2 * ALLOWED_TIME_SKEW
    requires i < j < |Run(events, l, unsafe).admitted|
    requires var h := Run(events, l, unsafe).admitted; SameRequest(h[i].request, h[j].request)
    ensures var h := Run(events, l, unsafe).admitted;
      && h[i].stamp == Instant(h[i].request) - ALLOWED_TIME_SKEW
      && h[j].stamp == Instant(h[j].request) + ALLOWED_TIME_SKEW
  {
    var h := Run(events, l, unsafe).admitted;
    RunIsCacheRun(events, l, unsafe);
    CallsOrdered(events, unsafe);
    C.Refinement(Calls(events, unsafe), l);
    C.AcceptancesSpaced(Calls(events, unsafe), l);
    AdmittedAreValid(events, l, unsafe);
    assert h[i] in h && h[j] in h;
    TimestampAccepted(h[i].request.timestamp, h[i].stamp);
    TimestampAccepted(h[j].request.timestamp, h[j].stamp);
    var k := Keys(h);
    assert k[i].key == k[j].key;
    assert k[j].stamp - k[i].stamp >= l.ttl;
  }

  /** Never a third time. */
  lemma NoThirdAdmission(events: seq<Event>, l: C.Limits, unsafe: Unsafe, i: nat, j: nat, k: nat)
    requires Ordered(events) && l.ttl == 2 * ALLOWED_TIME_SKEW
    requires i < j < k < |Run(events, l, unsafe).admitted|
    ensures var h := Run(events, l, unsafe).admitted;
      !(SameRequest(h[i].request, h[j].request) && SameRequest(h[j].request, h[k].request))
  {
    var h := Run(events, l, unsafe).admitted;
    if SameRequest(h[i].request, h[j].request) && SameRequest(h[j].request, h[k].request) {
      NoReplay(events, l, unsafe, i, j);
      NoReplay(events, l, unsafe, j, k);
    }
  }

  /** The exception is real: any request that is acceptable at some moment is admitted at both ends
      of its window. */
  lemma BothEndsAdmit(form: AuthRequest, now: int, l: C.Limits, unsafe: Unsafe)
    requires l.ttl == 2 * ALLOWED_TIME_SKEW && (l.capacity.Some? ==> l.capacity.value >= 2)
    requires ParseAuthRequest(form, now, unsafe).1.None?
    ensures
      var t := Instant(form);
      var events := [Arrive(form, t - ALLOWED_TIME_SKEW, true), Arrive(form, t + ALLOWED_TIME_SKEW, true)];
      |Run(events, l, unsafe).admitted| == 2
  {
    hide ParseAuthRequest, C.Check, C.Keep, Instant, Run;
    var t := Instant(form);
    var t1, t2 := t - ALLOWED_TIME_SKEW, t + ALLOWED_TIME_SKEW;
    AcceptedInWindow(form, now, t1, unsafe);
    AcceptedInWindow(form, now, t2, unsafe);
    CheckedTwice(NonceKey(ParseAuthRequest(form, t1, unsafe).0), t1, t2, l);
    RunOfTwo(Arrive(form, t1, true), Arrive(form, t2, true), l, unsafe);
  }

  /** Acceptance depends on the clock only through the window of the timestamp. */
  lemma AcceptedInWindow(form: AuthRequest, now: int, later: int, unsafe: Unsafe)
    requires ParseAuthRequest(form, now, unsafe).1.None?
    requires Instant(form) - ALLOWED_TIME_SKEW <= later <= Instant(form) + ALLOWED_TIME_SKEW
    ensures ParseAuthRequest(form, later, unsafe) == ParseAuthRequest(form, now, unsafe)
  {
    var ts := TrimSpace(form.timestamp);
    TrimSpaceTrims(form.timestamp);
    TrimSpaceFixes(ts);
    TimestampAccepted(ts, now);
    TimestampAccepted(ts, later);
    hide ValidateTimestamp, ValidateUsername, ValidatePubKey, ValidateNonce, TrimSpace;
  }

  /** A form that is acceptable when no letter or digit counts as unsafe. */
  const SAMPLE := AuthRequest("a", "100", seq(16, _ => 'a'), seq(43, _ => 'a'))

  lemma SampleIsAcceptable(unsafe: Unsafe)
    requires forall c | Alphanumeric(c) :: !unsafe(c)
    ensures ParseAuthRequest(SAMPLE, 100 * SECOND, unsafe).1.None?
  {
    var form := SAMPLE;
    SampleFields(form);
    Acceptable(form, 100 * SECOND, unsafe);
  }

  lemma SampleFields(form: AuthRequest)
    requires form == SAMPLE
    ensures form.username != "" && form.timestamp != "" && form.nonce != "" && form.pubkey != ""
    ensures All(form.username, Alphanumeric) && All(form.timestamp, Alphanumeric)
    ensures All(form.nonce, Alphanumeric) && All(form.pubkey, Alphanumeric)
    ensures |form.username| == 1 && |form.nonce| == 16 && |form.pubkey| == 43
    ensures |form.timestamp| == 3 && AllDigits(form.timestamp) && Value(form.timestamp) == 100
  {
    SampleInstant();
  }

  lemma Acceptable(form: AuthRequest, now: int, unsafe: Unsafe)
    requires forall c | Alphanumeric(c) :: !unsafe(c)
    requires form.username != "" && form.timestamp != "" && form.nonce != "" && form.pubkey != ""
    requires All(form.username, Alphanumeric) && All(form.timestamp, Alphanumeric)
    requires All(form.nonce, Alphanumeric) && All(form.pubkey, Alphanumeric)
    requires |form.username| <= MAX_USERNAME_LENGTH && |form.pubkey| == 43
    requires MIN_NONCE_LENGTH <= |form.nonce| <= MAX_NONCE_LENGTH && |form.timestamp| <= MAX_TIMESTAMP_LENGTH
    requires AllDigits(form.timestamp) && Value(form.timestamp) * SECOND == now && now <= MAX_INT64
    ensures ParseAuthRequest(form, now, unsafe).1.None?
  {
    Letters(form.username, unsafe);
    Letters(form.timestamp, unsafe);
    Letters(form.nonce, unsafe);
    Letters(form.pubkey, unsafe);
    UsernameAccepted(form.username);
    PubKeyAccepted(form.pubkey);
    TimestampAccepted(form.timestamp, now);
    NonceAccepted(form.nonce);
    hide TrimSpace, ValidateUsername, ValidatePubKey, ValidateTimestamp, ValidateNonce, Value, SanitizeValue;
  }

  /** Letters and digits pass the sanitizer as they are. */
  lemma Letters(value: string, unsafe: Unsafe)
    requires value != "" && All(value, Alphanumeric) && forall c | Alphanumeric(c) :: !unsafe(c)
    ensures TrimSpace(value) == value && forall field :: SanitizeValue(field, value, unsafe) == (value, None)
  {
    NoSpaces(value, Alphanumeric);
    TrimSpaceFixes(value);
  }

  /** So one signed request is admitted twice in a concrete run, whatever the capacity from 2. */
  lemma ReplayHappens(l: C.Limits, unsafe: Unsafe)
    requires l.ttl == 2 * ALLOWED_TIME_SKEW && (l.capacity.Some? ==> l.capacity.value >= 2)
    requires forall c | Alphanumeric(c) :: !unsafe(c)
    ensures
      var events := [Arrive(SAMPLE, 70 * SECOND, true), Arrive(SAMPLE, 130 * SECOND, true)];
      |Run(events, l, unsafe).admitted| == 2
  {
    SampleIsAcceptable(unsafe);
    SampleInstant();
    BothEndsAdmit(SAMPLE, 100 * SECOND, l, unsafe);
    hide Run, ParseAuthRequest, Instant;
  }

  lemma SampleInstant()
    ensures Instant(SAMPLE) == 100 * SECOND && AllDigits(SAMPLE.timestamp) && Value(SAMPLE.timestamp) == 100
  {
    var ts := SAMPLE.timestamp;
    assert ts[..2] == "10" && "10"[..1] == "1" && "1"[..0] == "";
    DigitsAreTrimmed(ts);
    TrimSpaceFixes(ts);
    assert Value(ts) == 100;
  }

  lemma RunOfTwo(a: Event, b: Event, l: C.Limits, unsafe: Unsafe)
    ensures Run([a, b], l, unsafe) == Step(Step(Server(map[], []), a, l, unsafe), b, l, unsafe)
  {
    hide Step;
    assert [a, b][..1] == [a] && [a][..0] == [];
    assert Run([a], l, unsafe) == Step(Run([], l, unsafe), a, l, unsafe);
  }

  lemma CheckedTwice(key: string, t1: int, t2: int, l: C.Limits)
    requires t2 - t1 == l.ttl && (l.capacity.Some? ==> l.capacity.value >= 2)
    ensures
      var first := C.Check(map[], key, t1, l);
      first.1 && C.Check(first.0, key, t2, l).1
  {
    var first := C.Check(map[], key, t1, l);
    assert first.0 == map[key := t1] && |first.0| == 1;
  }

  /** The next request is admitted, with its own stamp, iff it verifies, it parses, its user has not
      used the nonce within ttl, and fewer than capacity keys are live; otherwise nothing is. */
  lemma AdmittedIff(events: seq<Event>, form: AuthRequest, now: int, verified: bool, l: C.Limits, unsafe: Unsafe)
    requires Ordered(events + [Arrive(form, now, verified)])
    ensures
      var s := Run(events, l, unsafe);
      var (r, verdict) := ParseAuthRequest(form, now, unsafe);
      Run(events + [Arrive(form, now, verified)], l, unsafe).admitted
      == if && verified && verdict.None?
            && (forall a | a in s.admitted && a.request.username == r.username && a.request.nonce == r.nonce ::
                  a.stamp <= now - l.ttl)
            && !l.Full(|C.Live(Keys(s.admitted), now - l.ttl)|)
         then s.admitted + [Admission(r, now)] else s.admitted
  {
    hide ParseAuthRequest, ValidateTimestamp, WellFormed, C.Check, C.Fresh, C.Live;
    var e := Arrive(form, now, verified);
    var all := events + [e];
    var s := Run(events, l, unsafe);
    var (r, verdict) := ParseAuthRequest(form, now, unsafe);
    assert all[..|events|] == events && all[|all| - 1] == e;
    assert Run(all, l, unsafe) == Step(s, e, l, unsafe);
    hide Run, NonceKey;
    if verified && verdict.None? {
      CacheState(events, e, NonceKey(r), l, unsafe);
      ParsedIsWellFormed(form, now, unsafe);
      AdmittedAreValid(events, l, unsafe);
      FreshMeans(s.admitted, r, now - l.ttl);
    }
  }

  /** The cache decides the next request as the unbounded history does. */
  lemma CacheState(events: seq<Event>, e: Event, key: string, l: C.Limits, unsafe: Unsafe)
    requires Ordered(events + [e])
    ensures var s := Run(events, l, unsafe);
      C.Check(s.nonces, key, e.now, l).1 <==> C.IdealAccepts(Keys(s.admitted), key, e.now, l)
  {
    var all := events + [e];
    var calls := Calls(events, unsafe);
    assert Ordered(events) by {
      forall i, j | 0 <= i < j < |events| ensures events[i].now <= events[j].now {
        assert events[i] == all[i] && events[j] == all[j];
      }
    }
    CallsOrdered(events, unsafe);
    RunIsCacheRun(events, l, unsafe);
    C.Refinement(calls, l);
    var clock := if calls == [] then e.now else calls[|calls| - 1].now;
    if calls != [] {
      assert calls[|calls| - 1] in calls;
      assert all[|events| - 1].now <= all[|events|].now;
    }
    C.CheckDecides(C.Run(calls, l), clock, key, e.now, l);
  }

  lemma FreshMeans(h: seq<Admission>, r: AuthRequest, cutoff: int)
    requires WellFormed(r) && forall a | a in h :: WellFormed(a.request)
    ensures C.Fresh(Keys(h), NonceKey(r), cutoff)
      <==> forall a | a in h && a.request.username == r.username && a.request.nonce == r.nonce :: a.stamp <= cutoff
  {
    var k := Keys(h);
    if C.Fresh(k, NonceKey(r), cutoff) {
      forall a | a in h && a.request.username == r.username && a.request.nonce == r.nonce ensures a.stamp <= cutoff {
        var i :| 0 <= i < |h| && h[i] == a;
        assert k[i].key == NonceKey(r);
      }
    }
    if forall a | a in h && a.request.username == r.username && a.request.nonce == r.nonce :: a.stamp <= cutoff {
      forall i | 0 <= i < |k| && k[i].key == NonceKey(r) ensures k[i].stamp <= cutoff {
        assert h[i] in h;
        NonceKeyInjective(h[i].request, r);
      }
    }
  }
}
