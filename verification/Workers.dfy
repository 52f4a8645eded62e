/** The workers of tincver/main.go: jobs from one channel, the one-slot token of updateTinc, the
    host-file transaction in between and one answer per job.  A run interleaves the steps of any
    number of workers; while a worker holds the token the directory moves only as the transaction
    of HostTx allows. */
module Workers {
  import opened Common
  import opened Text
  import opened Validation
  import PeerIP
  import opened HostTx

  const WORKER_COUNT := 8

  datatype Job = Job(id: nat, username: string, pubkey: string)

  /** What the run is given: the user store's addresses, the node names, and the five settings
      the template of processJob prints after them. */
  datatype World = World(store: map<string, string>, node: string -> string, settings: seq<string>, v6: PeerIP.V6Parser)
  {
    /** Node names are valid and tell the store's users apart; so do the stored addresses. */
    ghost predicate Valid() {
      && (forall u | u in store :: ValidateTincName(node(u)).None? && TrimSpace(node(u)) == node(u))
      && (forall u | u in store :: Trimmed(store[u]) && '\n' !in store[u])
      && NodesApart()
      && (forall u, v | u in store && v in store && store[u] == store[v] :: u == v)
    }

    ghost predicate NodesApart() {
      forall u, v | u in store && v in store && node(u) == node(v) :: u == v
    }

    function ConfOf(job: Job): Conf
      requires job.username in store
    {
      Conf(job.username, node(job.username), job.pubkey, store[job.username], true)
    }

    /** The configuration text: seven lines, the second the user's address. */
    function ConfigBody(job: Job): string
      requires job.username in store
    {
      Join([node(job.username), store[job.username]] + settings, '\n')
    }
  }

  const USER_NOT_FOUND := "User not found"
  const INTERNAL_ERROR := "Internal error"

  /** Before the reload; after it went through or was skipped; in a rollback; in one of which a
      rename or removal has failed. */
  datatype Stage = Writing | Reloaded | RollingBack | Faulted

  datatype PC =
    | Idle
    | Taken(job: Job)
    | Waiting(job: Job)                  // at the token
    | Updating(job: Job, before: Files, stage: Stage)  // holds the token
    | Answer(job: Job, message: string)  // in deliver

  /** committed and delivered are the history of the run; broken holds the hosts on which a rollback
      failed and no update has committed since. */
  datatype State = State(files: Files, token: Option<nat>, pc: map<nat, PC>, queue: seq<Job>,
                         committed: seq<Job>, delivered: seq<(Job, string)>, broken: set<string>)
  {
    function At(w: nat): PC { if w in pc then pc[w] else Idle }
    function Go(w: nat, p: PC): State { this.(pc := pc[w := p]) }
  }

  function UpdateOf(world: World, job: Job, before: Files): Update
    requires job.username in world.store
  {
    Update(world.ConfOf(job).nodename, before, world.ConfOf(job).After())
  }

  // ---------------------------------------------------------------- steps

  ghost predicate Init(s: State, initial: Files) {
    s == State(initial, None, map[], [], [], [], {})
  }

  /** The environment hands in a job. */
  ghost predicate Submit(s: State, s': State) {
    exists job :: s' == s.(queue := s.queue + [job])
  }

  /** One step of worker w. */
  ghost predicate Step(s: State, w: nat, s': State, world: World) {
    match s.At(w)
    case Idle => s.queue != [] && s' == s.Go(w, Taken(s.queue[0])).(queue := s.queue[1..])
    case Taken(job) =>
      || s' == s.Go(w, Idle)  // canceled: no answer
      || s' == s.Go(w, if job.username in world.store then Waiting(job) else Answer(job, USER_NOT_FOUND))
    case Waiting(job) =>
      || s' == s.Go(w, Answer(job, INTERNAL_ERROR))  // refused by a validator, or canceled
      || (&& s.token == None && job.username in world.store && ValidPeer(world.ConfOf(job), world.v6)
          && s' == s.Go(w, Updating(job, s.files, Writing)).(token := Some(w)))
    case Updating(job, before, stage) =>
      job.username in world.store && Transact(s, w, s', job, UpdateOf(world, job, before), stage, world)
    case Answer(job, message) =>
      || s' == s.Go(w, Idle)  // the client is gone
      || s' == s.Go(w, Idle).(delivered := s.delivered + [(job, message)])
  }

  /** The holder of the token: a file operation, the reload of a finished change, the end of a
      successful update, the start of a rollback or a fault in it, the end of a failed update that
      left no mark, or the end of one whose rollback failed. */
  ghost predicate Transact(s: State, w: nat, s': State, job: Job, u: Update, stage: Stage, world: World)
    requires job.username in world.store
  {
    || (exists f, renameFailed :: Visible(f, u, renameFailed) && s' == s.(files := f))
    || (stage.Writing? && Applied(s.files, u) && s' == s.Go(w, Updating(job, u.before, Reloaded)))
    || (stage.Reloaded? && Applied(s.files, u) && s' == Committed(s, w, job, u.host, world))
    || (stage.Writing? && s' == s.Go(w, Updating(job, u.before, RollingBack)))
    || (stage.RollingBack? && s' == s.Go(w, Updating(job, u.before, Faulted)))
    || (Undone(s.files, u) && s' == s.Go(w, Answer(job, INTERNAL_ERROR)).(token := None))
    || (stage.Faulted? && s' == s.Go(w, Answer(job, INTERNAL_ERROR)).(token := None, broken := s.broken + {u.host}))
  }

  /** A commit also repairs a host that an earlier rollback left broken. */
  function Committed(s: State, w: nat, job: Job, host: string, world: World): State
    requires job.username in world.store
  {
    s.Go(w, Answer(job, world.ConfigBody(job))).(
      token := None, committed := s.committed + [job], broken := s.broken - {host})
  }

  // ---------------------------------------------------------------- the sequential reference

  /** The files if the committed updates had run one after the other. */
  function Sequential(initial: Files, committed: seq<Job>, world: World): Files
    requires forall j | j in committed :: j.username in world.store
  {
    if committed == [] then initial else
    var n := |committed| - 1;
    var conf := world.ConfOf(committed[n]);
    Sequential(initial, committed[..n], world)[conf.nodename := BuildTincHost(conf.userip, conf.userpublic)]
  }

  // ---------------------------------------------------------------- the invariant

  /** The content is a file built for the user behind the node, from the address of the store. */
  ghost predicate Built(content: string, host: string, world: World) {
    exists u: string, key: string :: u in world.store && world.node(u) == host && ValidatePubKey(key).None?
                  && content == BuildTincHost(world.store[u], key)
  }

  /** Once an update of the host has committed, its file is a built one or missing; before that it
      may also still be the initial one. */
  ghost predicate OwnFile(files: Files, host: string, initial: Files, committed: seq<Job>, world: World) {
    || host !in files
    || Built(files[host], host, world)
    || (Look(files, host) == Look(initial, host) && forall j | j in committed :: world.node(j.username) != host)
  }

  ghost predicate FilesOwn(s: State, files: Files, initial: Files, world: World) {
    forall n: string | !Temp(n) :: OwnFile(files, n, initial, s.committed, world)
  }

  /** Outside the broken hosts the files are those of the sequential reference. */
  ghost predicate Settled(s: State, files: Files, initial: Files, world: World)
    requires forall j | j in s.committed :: j.username in world.store
  {
    forall n: string | !Temp(n) && n !in s.broken :: Look(files, n) == Look(Sequential(initial, s.committed, world), n)
  }

  /** An answer says what became of its job. */
  ghost predicate Truthful(job: Job, message: string, committed: seq<Job>, world: World) {
    if job.username !in world.store then message == USER_NOT_FOUND
    else message == INTERNAL_ERROR || (message == world.ConfigBody(job) && job in committed)
  }

  ghost predicate Sound(s: State, p: PC, initial: Files, world: World)
    requires forall j | j in s.committed :: j.username in world.store
  {
    match p
    case Idle => true
    case Taken(_) => true
    case Waiting(job) => job.username in world.store
    case Updating(job, before, _) =>
      && job.username in world.store && ValidPeer(world.ConfOf(job), world.v6)
      && (exists renameFailed :: Visible(s.files, UpdateOf(world, job, before), renameFailed))
      && FilesOwn(s, before, initial, world) && Settled(s, before, initial, world)
    case Answer(job, message) => Truthful(job, message, s.committed, world)
  }

  ghost predicate Inv(s: State, initial: Files, world: World) {
    && (forall j | j in s.committed :: j.username in world.store)
    && (forall w | w in s.pc && s.pc[w].Updating? :: s.token == Some(w))
    && (s.token.Some? ==> s.At(s.token.value).Updating?)
    && (forall w | w in s.pc :: Sound(s, s.pc[w], initial, world))
    && (forall d | d in s.delivered :: Truthful(d.0, d.1, s.committed, world))
    && FilesOwn(s, s.files, initial, world)
    && (s.token == None ==> Settled(s, s.files, initial, world))
  }

  // ---------------------------------------------------------------- every step keeps it

  /** A step of a worker outside the transaction. */
  lemma QuietStep(s: State, w: nat, s': State, p: PC, initial: Files, world: World)
    requires Inv(s, initial, world) && !s.At(w).Updating? && !p.Updating?
    requires s'.pc == s.pc[w := p] && s'.files == s.files && s'.committed == s.committed
    requires s'.broken == s.broken && s'.token == s.token
    requires Sound(s, p, initial, world)
    requires forall d | d in s'.delivered :: Truthful(d.0, d.1, s.committed, world)
    ensures Inv(s', initial, world)
  {
    forall v | v in s'.pc ensures Sound(s', s'.pc[v], initial, world) {
      assert Sound(s, s'.pc[v], initial, world);
    }
    assert FilesOwn(s', s'.files, initial, world);
  }

  lemma AcquireStep(s: State, w: nat, s': State, job: Job, initial: Files, world: World)
    requires Inv(s, initial, world) && s.token == None
    requires job.username in world.store && ValidPeer(world.ConfOf(job), world.v6)
    requires s' == s.Go(w, Updating(job, s.files, Writing)).(token := Some(w))
    ensures Inv(s', initial, world)
  {
    assert Visible(s.files, UpdateOf(world, job, s.files), false);
    forall v | v in s'.pc ensures Sound(s', s'.pc[v], initial, world) {
      if v != w { assert Sound(s, s.pc[v], initial, world) && !s.pc[v].Updating?; }
    }
    assert FilesOwn(s', s'.files, initial, world);
  }

  /** What an update shows is owned if what it started from is. */
  lemma ShownIsOwned(s: State, f: Files, renameFailed: bool, job: Job, before: Files, initial: Files, world: World)
    requires job.username in world.store && ValidPeer(world.ConfOf(job), world.v6)
    requires Visible(f, UpdateOf(world, job, before), renameFailed)
    requires FilesOwn(s, before, initial, world)
    ensures FilesOwn(s, f, initial, world)
  {
    var u := UpdateOf(world, job, before);
    forall n: string | !Temp(n) ensures OwnFile(f, n, initial, s.committed, world) {
      assert OwnFile(before, n, initial, s.committed, world);
      if n == u.host && n in f && Look(f, n) == u.after {
        assert Built(f[n], n, world);
      } else if n in f {
        assert Look(f, n) == Look(before, n);
      }
    }
  }

  lemma FileStep(s: State, w: nat, s': State, f: Files, renameFailed: bool, initial: Files, world: World)
    requires Inv(s, initial, world) && s.At(w).Updating?
    requires s.At(w).job.username in world.store && s' == s.(files := f)
    requires Visible(f, UpdateOf(world, s.At(w).job, s.At(w).before), renameFailed)
    ensures Inv(s', initial, world)
  {
    var job, before := s.At(w).job, s.At(w).before;
    ShownIsOwned(s, f, renameFailed, job, before, initial, world);
    forall v | v in s'.pc ensures Sound(s', s'.pc[v], initial, world) {
      assert Sound(s, s.pc[v], initial, world);
    }
    assert FilesOwn(s', f, initial, world);
  }

  /** The reload goes through, a rollback begins, or an operation of it fails. */
  lemma StageStep(s: State, w: nat, s': State, stage: Stage, initial: Files, world: World)
    requires Inv(s, initial, world) && s.At(w).Updating? && s' == s.Go(w, s.At(w).(stage := stage))
    ensures Inv(s', initial, world)
  {
    forall v | v in s'.pc ensures Sound(s', s'.pc[v], initial, world) {
      assert Sound(s, s.pc[v], initial, world);
    }
    assert FilesOwn(s', s'.files, initial, world);
  }

  /** The end of a transaction, once its effect on the files is accounted for. */
  lemma EndStep(s: State, w: nat, s': State, p: PC, initial: Files, world: World)
    requires Inv(s, initial, world) && s.At(w).Updating? && p.Answer?
    requires s'.pc == s.pc[w := p] && s'.token == None && s'.files == s.files && s'.delivered == s.delivered
    requires forall j | j in s'.committed :: j.username in world.store
    requires forall j | j in s.committed :: j in s'.committed
    requires Truthful(p.job, p.message, s'.committed, world)
    requires FilesOwn(s', s'.files, initial, world) && Settled(s', s'.files, initial, world)
    ensures Inv(s', initial, world)
  {
    forall v | v in s'.pc ensures Sound(s', s'.pc[v], initial, world) {
      if v != w { assert Sound(s, s.pc[v], initial, world) && !s.pc[v].Updating?; }
    }
  }

  lemma CommitStep(s: State, w: nat, s': State, initial: Files, world: World)
    requires Inv(s, initial, world) && s.At(w).Updating? && s.At(w).job.username in world.store
    requires
      var (job, before) := (s.At(w).job, s.At(w).before);
      Applied(s.files, UpdateOf(world, job, before)) && s' == Committed(s, w, job, world.node(job.username), world)
    ensures Inv(s', initial, world)
  {
    var job, before := s.At(w).job, s.At(w).before;
    var u := UpdateOf(world, job, before);
    assert Sound(s, s.At(w), initial, world);
    assert s'.committed[..|s.committed|] == s.committed;
    forall n: string | !Temp(n)
      ensures OwnFile(s.files, n, initial, s'.committed, world)
      ensures n !in s'.broken ==> Look(s.files, n) == Look(Sequential(initial, s'.committed, world), n)
    {
      if n == u.host {
        assert Built(s.files[n], n, world);
      } else {
        assert Look(s.files, n) == Look(before, n);
        assert OwnFile(before, n, initial, s.committed, world);
      }
    }
    EndStep(s, w, s', Answer(job, world.ConfigBody(job)), initial, world);
  }

  /** A failed update, with or without a rollback that went through. */
  lemma FailStep(s: State, w: nat, s': State, initial: Files, world: World)
    requires Inv(s, initial, world) && s.At(w).Updating? && s.At(w).job.username in world.store
    requires
      var (job, before) := (s.At(w).job, s.At(w).before);
      var u := UpdateOf(world, job, before);
      && s' == s.Go(w, Answer(job, INTERNAL_ERROR)).(token := None, broken := s'.broken)
      && ((Undone(s.files, u) && s'.broken == s.broken) || s'.broken == s.broken + {u.host})
    ensures Inv(s', initial, world)
  {
    var job, before := s.At(w).job, s.At(w).before;
    assert Sound(s, s.At(w), initial, world);
    forall n: string | !Temp(n)
      ensures OwnFile(s.files, n, initial, s'.committed, world)
      ensures n !in s'.broken ==> Look(s.files, n) == Look(Sequential(initial, s'.committed, world), n)
    {
      assert OwnFile(s.files, n, initial, s.committed, world);
      if n !in s'.broken { assert Look(s.files, n) == Look(before, n); }
    }
    EndStep(s, w, s', Answer(job, INTERNAL_ERROR), initial, world);
  }

  lemma TransactKeepsInv(s: State, w: nat, s': State, initial: Files, world: World)
    requires Inv(s, initial, world) && s.At(w).Updating? && Step(s, w, s', world)
    ensures Inv(s', initial, world)
  {
    hide Inv, Visible, Applied, Undone;
    var job, before := s.At(w).job, s.At(w).before;
    var u := UpdateOf(world, job, before);
    if f, renameFailed :| Visible(f, u, renameFailed) && s' == s.(files := f) {
      FileStep(s, w, s', f, renameFailed, initial, world);
    } else if Applied(s.files, u) && s' == Committed(s, w, job, u.host, world) {
      CommitStep(s, w, s', initial, world);
    } else if s'.At(w).Updating? {
      StageStep(s, w, s', s'.At(w).stage, initial, world);
    } else {
      FailStep(s, w, s', initial, world);
    }
  }

  lemma StepKeepsInv(s: State, w: nat, s': State, initial: Files, world: World)
    requires Inv(s, initial, world) && Step(s, w, s', world)
    ensures Inv(s', initial, world)
  {
    match s.At(w)
    case Updating(_, _, _) => TransactKeepsInv(s, w, s', initial, world);
    case Waiting(job) =>
      if s'.token == s.token {
        assert Sound(s, s.At(w), initial, world);
        QuietStep(s, w, s', Answer(job, INTERNAL_ERROR), initial, world);
      } else {
        AcquireStep(s, w, s', job, initial, world);
      }
    case _ => QuietStep(s, w, s', s'.pc[w], initial, world);
  }

  // ---------------------------------------------------------------- whole runs

  ghost predicate IsRun(trace: seq<State>, initial: Files, world: World) {
    && trace != [] && Init(trace[0], initial)
    && forall i | 0 <= i < |trace| - 1 :: Moves(trace[i], trace[i + 1], world)
  }

  ghost predicate Moves(s: State, s': State, world: World) {
    Submit(s, s') || exists w: nat :: w < WORKER_COUNT && Step(s, w, s', world)
  }

  lemma {:induction false} RunKeepsInv(trace: seq<State>, initial: Files, world: World)
    requires IsRun(trace, initial, world)
    ensures Inv(trace[|trace| - 1], initial, world)
  {
    var n := |trace| - 1;
    if n > 0 {
      var s, s' := trace[n - 1], trace[n];
      RunKeepsInv(trace[..n], initial, world);
      assert Moves(trace[n - 1], trace[n - 1 + 1], world);
      if Submit(s, s') {
        SubmitKeepsInv(s, s', initial, world);
      } else {
        var w: nat :| w < WORKER_COUNT && Step(s, w, s', world);
        StepKeepsInv(s, w, s', initial, world);
      }
    }
  }

  lemma SubmitKeepsInv(s: State, s': State, initial: Files, world: World)
    requires Inv(s, initial, world) && Submit(s, s')
    ensures Inv(s', initial, world)
  {
    forall v | v in s'.pc ensures Sound(s', s'.pc[v], initial, world) {
      assert Sound(s, s.pc[v], initial, world);
    }
    assert FilesOwn(s', s'.files, initial, world);
  }

  ghost predicate CommittedFor(s: State, user: string) {
    exists j :: j in s.committed && j.username == user
  }

  /** In every reachable state a host file that was committed in the run and is there declares the
      address the store holds for its user. */
  lemma CommittedFileIsOwn(trace: seq<State>, initial: Files, world: World, user: string)
    requires world.Valid() && IsRun(trace, initial, world)
    requires user in world.store && CommittedFor(trace[|trace| - 1], user)
    requires world.node(user) in trace[|trace| - 1].files
    ensures Variable(trace[|trace| - 1].files[world.node(user)], "Subnet") == Some(world.store[user])
  {
    var s, host := trace[|trace| - 1], world.node(user);
    RunKeepsInv(trace, initial, world);
    NodeNamesAreNotTemp(host);
    assert OwnFile(s.files, host, initial, s.committed, world);
    var j :| j in s.committed && j.username == user;
    assert world.node(j.username) == host;
    var u: string, key: string :| u in world.store && world.node(u) == host && ValidatePubKey(key).None?
                                  && s.files[host] == BuildTincHost(world.store[u], key);
    assert u == user;
    PubKeyIsOneLine(key);
    TrimSpaceFixes(world.store[user]);
    HostFileSays(world.store[user], key);
  }

  lemma PubKeyIsOneLine(key: string)
    requires ValidatePubKey(key).None?
    ensures '\n' !in TrimSpace(key)
  {
    var s := TrimSpace(key);
    forall c | c in s ensures c != '\n' {
      if |s| == 44 { assert s == s[..43] + [s[43]]; }
    }
  }

  /** Committed files of different users never share a Subnet, in any state of any run. */
  lemma SubnetsApart(trace: seq<State>, initial: Files, world: World, a: string, b: string)
    requires world.Valid() && IsRun(trace, initial, world)
    requires a in world.store && b in world.store && a != b
    requires CommittedFor(trace[|trace| - 1], a) && CommittedFor(trace[|trace| - 1], b)
    requires world.node(a) in trace[|trace| - 1].files && world.node(b) in trace[|trace| - 1].files
    ensures world.node(a) != world.node(b)
    ensures var files := trace[|trace| - 1].files;
      Variable(files[world.node(a)], "Subnet") != Variable(files[world.node(b)], "Subnet")
  {
    CommittedFileIsOwn(trace, initial, world, a);
    CommittedFileIsOwn(trace, initial, world, b);
  }

  /** Whenever the token is free the hosts look as if the committed updates, and only they, had run
      one after the other; the exception are hosts whose last transaction to leave a mark was a
      failed rollback. */
  lemma RunIsSequential(trace: seq<State>, initial: Files, world: World, host: string)
    requires IsRun(trace, initial, world) && trace[|trace| - 1].token == None
    requires !Temp(host) && host !in trace[|trace| - 1].broken
    ensures
      var s := trace[|trace| - 1];
      && (forall j | j in s.committed :: j.username in world.store)
      && Look(s.files, host) == Look(Sequential(initial, s.committed, world), host)
  {
    RunKeepsInv(trace, initial, world);
  }

  /** In the sequential reference the last committed job of a user decides the user's file. */
  lemma {:induction false} LastCommitDecides(initial: Files, committed: seq<Job>, world: World, i: nat)
    requires world.NodesApart() && forall j | j in committed :: j.username in world.store
    requires i < |committed| && forall k | i < k < |committed| :: committed[k].username != committed[i].username
    ensures
      var user := committed[i].username;
      Look(Sequential(initial, committed, world), world.node(user))
      == Some(BuildTincHost(world.store[user], committed[i].pubkey))
  {
    hide BuildTincHost;
    var n := |committed| - 1;
    var last, user := committed[n].username, committed[i].username;
    assert committed[n] in committed && committed[i] in committed;
    if i < n {
      assert committed[..n][i] == committed[i];
      LastCommitDecides(initial, committed[..n], world, i);
      assert world.node(last) != world.node(user);
    }
  }

  /** A job is answered with its configuration only after its own update has committed, with
      "User not found" exactly when the store lacks the user, and otherwise with "Internal error". */
  lemma AnswersAreTruthful(trace: seq<State>, initial: Files, world: World, job: Job, message: string)
    requires IsRun(trace, initial, world) && |world.settings| > 0
    requires (job, message) in trace[|trace| - 1].delivered
    ensures message == USER_NOT_FOUND <==> job.username !in world.store
    ensures message != USER_NOT_FOUND && message != INTERNAL_ERROR ==>
              && job in trace[|trace| - 1].committed
              && job.username in world.store && message == world.ConfigBody(job)
    ensures job.username in world.store ==> world.ConfigBody(job) != INTERNAL_ERROR
  {
    RunKeepsInv(trace, initial, world);
    var d := (job, message);
    assert Truthful(d.0, d.1, trace[|trace| - 1].committed, world);
    if job.username in world.store { BodyIsNoFixedMessage(job, world); }
  }

  lemma BodyIsNoFixedMessage(job: Job, world: World)
    requires job.username in world.store && |world.settings| > 0
    ensures world.ConfigBody(job) != INTERNAL_ERROR && world.ConfigBody(job) != USER_NOT_FOUND
  {
    var parts := [world.node(job.username), world.store[job.username]] + world.settings;
    var body := world.ConfigBody(job);
    assert body == parts[0] + ['\n'] + Join(parts[1..], '\n');
    assert body[|parts[0]|] == '\n';
    assert '\n' in body && '\n' !in INTERNAL_ERROR && '\n' !in USER_NOT_FOUND;
  }

  /** The second line of a configuration is the address the user's host file declares. */
  lemma BodyNamesOwnAddress(job: Job, world: World)
    requires world.Valid() && job.username in world.store
    ensures
      var lines := Split(world.ConfigBody(job), '\n');
      |lines| >= 2 && lines[0] == world.node(job.username) && lines[1] == world.store[job.username]
  {
    var node, ip := world.node(job.username), world.store[job.username];
    var parts := [node, ip] + world.settings;
    NodeNamesAreOneLine(node);
    assert parts[1..] == [ip] + world.settings;
    SplitSeparator(node, '\n', Join([ip] + world.settings, '\n'));
    FirstLine(ip, world.settings);
  }

  /** Where no setting has a line break, the lines are those two and then the settings in order. */
  lemma BodyLines(job: Job, world: World)
    requires world.Valid() && job.username in world.store
    requires forall line | line in world.settings :: '\n' !in line
    ensures Split(world.ConfigBody(job), '\n')
         == [world.node(job.username), world.store[job.username]] + world.settings
  {
    NodeNamesAreOneLine(world.node(job.username));
    SplitJoin([world.node(job.username), world.store[job.username]] + world.settings, '\n');
  }

  lemma FirstLine(line: string, more: seq<string>)
    requires '\n' !in line
    ensures Split(Join([line] + more, '\n'), '\n')[0] == line
  {
    var parts := [line] + more;
    if more == [] {
      SplitAbsent(line, '\n');
    } else {
      assert parts[1..] == more;
      SplitSeparator(line, '\n', Join(more, '\n'));
    }
  }

  lemma NodeNamesAreOneLine(name: string)
    requires ValidateTincName(name).None? && TrimSpace(name) == name
    ensures '\n' !in name
  {
  }

  // ---------------------------------------------------------------- the transaction as steps of a run

  ghost predicate StepsOf(run: seq<State>, w: nat, world: World) {
    run != [] && forall i | 0 <= i < |run| - 1 :: Step(run[i], w, run[i + 1], world)
  }

  /** The states of a directory, one after the other, as file operations of the token's holder. */
  lemma {:induction false} FileOperations(s: State, w: nat, job: Job, before: Files, seen: seq<Snapshot>,
                                           renames: nat, world: World)
    returns (run: seq<State>)
    requires s.At(w) == Updating(job, before, Writing) && job.username in world.store
    requires AllShow(seen, 0, UpdateOf(world, job, before), renames)
    ensures StepsOf(run, w, world) && run[0] == s
    ensures run[|run| - 1] == if seen == [] then s else s.(files := seen[|seen| - 1].files)
  {
    if seen == [] {
      run := [s];
    } else {
      var n := |seen| - 1;
      var init := FileOperations(s, w, job, before, seen[..n], renames, world);
      var t, t' := init[|init| - 1], s.(files := seen[n].files);
      assert Visible(seen[n].files, UpdateOf(world, job, before), seen[n].renames > renames);
      assert Step(t, w, t', world);
      run := init + [t'];
    }
  }

  lemma OneMoreStep(run: seq<State>, w: nat, t: State, world: World)
    requires StepsOf(run, w, world) && Step(run[|run| - 1], w, t, world)
    ensures StepsOf(run + [t], w, world)
  {
  }

  /** The steps that end a transaction. */
  lemma LastSteps(run: seq<State>, w: nat, job: Job, u: Update, r: HostTx.Result, world: World)
    returns (more: seq<State>)
    requires StepsOf(run, w, world) && job.username in world.store && u == UpdateOf(world, job, u.before)
    requires var s := run[|run| - 1];
      && s.At(w) == Updating(job, u.before, Writing) && (r.Ok? || r.Failed?)
      && (r.Ok? ==> Applied(s.files, u)) && (r.Failed? && r.restored ==> Undone(s.files, u))
    ensures StepsOf(more, w, world) && more[0] == run[0]
    ensures Ends(run[|run| - 1], more[|more| - 1], w, job, r, world)
  {
    var s := run[|run| - 1];
    if r.Ok? {
      var ready := s.Go(w, Updating(job, u.before, Reloaded));
      assert Committed(ready, w, job, u.host, world) == Committed(s, w, job, u.host, world);
      OneMoreStep(run, w, ready, world);
      more := run + [ready] + [Committed(s, w, job, u.host, world)];
    } else if r.restored {
      more := run + [s.Go(w, Answer(job, INTERNAL_ERROR)).(token := None)];
    } else {
      var begun, faulted := s.Go(w, Updating(job, u.before, RollingBack)), s.Go(w, Updating(job, u.before, Faulted));
      assert begun.Go(w, Updating(job, u.before, Faulted)) == faulted;
      var end := s.Go(w, Answer(job, INTERNAL_ERROR)).(token := None, broken := s.broken + {u.host});
      assert end == faulted.Go(w, Answer(job, INTERNAL_ERROR)).(token := None, broken := s.broken + {u.host});
      OneMoreStep(run, w, begun, world);
      OneMoreStep(run + [begun], w, faulted, world);
      more := run + [begun] + [faulted] + [end];
    }
  }

  /** What a run of one transaction ends in: the host is committed, left alone, or broken, the last
      exactly when the rollback failed. */
  ghost predicate Ends(s: State, t: State, w: nat, job: Job, r: HostTx.Result, world: World)
    requires job.username in world.store
  {
    var host := world.node(job.username);
    && t.files == s.files && t.token == None
    && t.committed == s.committed + (if r.Ok? then [job] else [])
    && t.At(w) == Answer(job, if r.Ok? then world.ConfigBody(job) else INTERNAL_ERROR)
    && t.broken == (if r.Ok? then s.broken - {host}
                    else if r.Failed? && !r.restored then s.broken + {host} else s.broken)
  }

  lemma TransactionIsRun(s: State, w: nat, job: Job, seen: seq<Snapshot>, renames: nat, r: HostTx.Result, world: World)
    returns (run: seq<State>)
    requires job.username in world.store && s.At(w) == Updating(job, s.files, Writing)
    requires seen != [] && AllShow(seen, 0, UpdateOf(world, job, s.files), renames)
    requires r.Ok? || r.Failed?
    requires
      var (u, files) := (UpdateOf(world, job, s.files), seen[|seen| - 1].files);
      (r.Ok? ==> Applied(files, u)) && (r.Failed? && r.restored ==> Undone(files, u))
    ensures StepsOf(run, w, world) && run[0] == s
    ensures Ends(s.(files := seen[|seen| - 1].files), run[|run| - 1], w, job, r, world)
  {
    var ops := FileOperations(s, w, job, s.files, seen, renames, world);
    run := LastSteps(ops, w, job, UpdateOf(world, job, s.files), r, world);
  }

  /** updateTinc under the token is a run of the worker's steps: whatever the method does to the
      directory, the run ends with the same files, the token free, and the commit and the answer
      that fit its result; the host counts as broken only if a rename or a removal of the rollback
      failed. */
  method UpdateInRun(dir: HostsDir, ghost s: State, ghost w: nat, job: Job, live: bool, reload: bool,
                     reloaded: bool, world: World)
    returns (r: HostTx.Result, ghost run: seq<State>)
    requires dir.Valid() && job.username in world.store
    requires s.At(w) == Updating(job, dir.files, Writing) && s.files == dir.files
    modifies dir
    ensures r.Ok? || r.Failed? ==>
              StepsOf(run, w, world) && run[0] == s && Ends(s.(files := dir.files), run[|run| - 1], w, job, r, world)
    ensures reload && !reloaded ==> !r.Ok?
    ensures r.Failed? ==> FailedWell(dir, UpdateOf(world, job, s.files), r.restored, old(dir.rollbacks))
    ensures r.Invalid? || r.Canceled? ==> dir.files == old(dir.files)
  {
    hide ValidPeer, Visible, Applied, Undone, AllShow, SameTemps, FailedWell, BuildTincHost, Ends, StepsOf, Step;
    ghost var past, from := dir.trace, dir.faults.renames;
    r := UpdateTinc(dir, world.ConfOf(job), true, live, reload, reloaded, world.v6);
    run := [s];
    if r.Ok? || r.Failed? {
      hide *;
      run := RunOfUpdate(s, w, job, past, dir.trace, Snapshot(dir.files, dir.faults.renames), from, r, world);
    }
  }

  lemma RunOfUpdate(s: State, w: nat, job: Job, past: seq<Snapshot>, now: seq<Snapshot>, last: Snapshot, from: nat,
                    r: HostTx.Result, world: World)
    returns (run: seq<State>)
    requires job.username in world.store && s.At(w) == Updating(job, s.files, Writing)
    requires past <= now && (r.Ok? || r.Failed?) && last.renames >= from
    requires
      var u := UpdateOf(world, job, s.files);
      && AllShow(now, |past|, u, from) && Visible(last.files, u, last.renames > from)
      && (r.Ok? ==> Applied(last.files, u)) && (r.Failed? && r.restored ==> Undone(last.files, u))
    ensures StepsOf(run, w, world) && run[0] == s && Ends(s.(files := last.files), run[|run| - 1], w, job, r, world)
  {
    var seen := SeenSince(past, now, last, from, UpdateOf(world, job, s.files));
    run := TransactionIsRun(s, w, job, seen, from, r, world);
  }

  /** The recorded states since a point in time, with the current one at the end. */
  lemma SeenSince(past: seq<Snapshot>, now: seq<Snapshot>, last: Snapshot, from: nat, u: Update)
    returns (seen: seq<Snapshot>)
    requires past <= now && AllShow(now, |past|, u, from)
    requires last.renames >= from && Visible(last.files, u, last.renames > from)
    ensures seen != [] && seen[|seen| - 1] == last && AllShow(seen, 0, u, from)
  {
    seen := now[|past|..] + [last];
    forall i | 0 <= i < |seen| ensures seen[i].renames >= from && Visible(seen[i].files, u, seen[i].renames > from) {
      if i < |seen| - 1 { assert seen[i] == now[|past| + i]; }
    }
  }
}
