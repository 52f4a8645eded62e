/** Jobs of the workers of tincver/main.go, counted: none is committed or answered more often than
    it was handed in, and one that meets no fault gets its configuration. */
module WorkerAnswers {
  import opened Common
  import opened HostTx
  import opened Workers

  // ---------------------------------------------------------------- counting

  /** The worker still has the job; in a count of commits, only until it has an answer. */
  predicate InHand(p: PC, job: Job, commits: bool) {
    match p
    case Idle => false
    case Answer(j, _) => j == job && !commits
    case Taken(j) => j == job
    case Waiting(j) => j == job
    case Updating(j, _, _) => j == job
  }

  function Hands(pc: map<nat, PC>, job: Job, commits: bool): set<nat> {
    set w | w in pc && InHand(pc[w], job, commits)
  }

  function Answered(delivered: seq<(Job, string)>): seq<Job> {
    seq(|delivered|, i requires 0 <= i < |delivered| => delivered[i].0)
  }

  /** How often the job is waiting, in hand, and committed or answered. */
  function Load(s: State, job: Job, commits: bool): nat {
    multiset(s.queue)[job] + |Hands(s.pc, job, commits)| + Done(s, job, commits)
  }

  function Done(s: State, job: Job, commits: bool): nat {
    multiset(if commits then s.committed else Answered(s.delivered))[job]
  }

  /** How often the job was handed in. */
  function Submissions(trace: seq<State>, job: Job): nat {
    if |trace| <= 1 then 0 else
    var n := |trace| - 1;
    Submissions(trace[..n], job) + (if trace[n].queue == trace[n - 1].queue + [job] then 1 else 0)
  }

  function Held(p: PC, job: Job, commits: bool): nat { if InHand(p, job, commits) then 1 else 0 }

  function Others(pc: map<nat, PC>, w: nat, job: Job, commits: bool): set<nat> {
    set v | v in pc && v != w && InHand(pc[v], job, commits)
  }

  lemma HandsSize(s: State, w: nat, job: Job, commits: bool)
    ensures |Hands(s.pc, job, commits)| == |Others(s.pc, w, job, commits)| + Held(s.At(w), job, commits)
  {
    var others := Others(s.pc, w, job, commits);
    if InHand(s.At(w), job, commits) {
      assert Hands(s.pc, job, commits) == others + {w};
    } else {
      assert Hands(s.pc, job, commits) == others;
    }
    hide InHand;
  }

  lemma OthersStay(pc: map<nat, PC>, w: nat, p: PC, job: Job, commits: bool)
    ensures Others(pc[w := p], w, job, commits) == Others(pc, w, job, commits)
  {
    hide InHand;
  }

  /** What a step of one worker changes in the count. */
  lemma LoadMoves(s: State, w: nat, s': State, job: Job, commits: bool)
    requires w in s'.pc && s'.pc == s.pc[w := s'.pc[w]]
    ensures Load(s', job, commits) + multiset(s.queue)[job] + Held(s.At(w), job, commits) + Done(s, job, commits)
         == Load(s, job, commits) + multiset(s'.queue)[job] + Held(s'.At(w), job, commits) + Done(s', job, commits)
  {
    HandsSize(s, w, job, commits);
    HandsSize(s', w, job, commits);
    OthersStay(s.pc, w, s'.pc[w], job, commits);
    hide Hands, Others, Held, Done;
  }

  lemma QueueTail(queue: seq<Job>, job: Job)
    requires queue != []
    ensures multiset(queue)[job] == multiset(queue[1..])[job] + (if queue[0] == job then 1 else 0)
  {
    assert queue == [queue[0]] + queue[1..];
  }

  lemma OneMore(jobs: seq<Job>, last: Job, job: Job)
    ensures multiset(jobs + [last])[job] == multiset(jobs)[job] + (if last == job then 1 else 0)
  {
  }

  lemma AnsweredOneMore(delivered: seq<(Job, string)>, d: (Job, string))
    ensures Answered(delivered + [d]) == Answered(delivered) + [d.0]
  {
  }

  /** The worker keeps its job, or lets it go without a trace. */
  lemma KeepsJob(s: State, w: nat, s': State, job: Job, commits: bool)
    requires w in s'.pc && s'.pc == s.pc[w := s'.pc[w]]
    requires s'.queue == s.queue && s'.committed == s.committed && s'.delivered == s.delivered
    requires Held(s'.At(w), job, commits) <= Held(s.At(w), job, commits)
    ensures Load(s', job, commits) <= Load(s, job, commits)
  {
    LoadMoves(s, w, s', job, commits);
    hide Load, Held, Answered;
  }

  lemma TakesJob(s: State, w: nat, s': State, job: Job, commits: bool)
    requires s.queue != [] && s.At(w).Idle? && s' == s.Go(w, Taken(s.queue[0])).(queue := s.queue[1..])
    ensures Load(s', job, commits) <= Load(s, job, commits)
  {
    QueueTail(s.queue, job);
    LoadMoves(s, w, s', job, commits);
    hide Load, Answered;
  }

  lemma CommitsJob(s: State, w: nat, s': State, job: Job, commits: bool)
    requires s.At(w).Updating? && w in s'.pc && s'.pc == s.pc[w := s'.pc[w]]
    requires s'.pc[w].Answer? && s'.pc[w].job == s.At(w).job
    requires s'.queue == s.queue && s'.committed == s.committed + [s.At(w).job] && s'.delivered == s.delivered
    ensures Load(s', job, commits) <= Load(s, job, commits)
  {
    OneMore(s.committed, s.At(w).job, job);
    LoadMoves(s, w, s', job, commits);
    hide Load, Answered;
  }

  lemma DeliversJob(s: State, w: nat, s': State, job: Job, commits: bool)
    requires s.At(w).Answer?
    requires s' == s.Go(w, Idle).(delivered := s.delivered + [(s.At(w).job, s.At(w).message)])
    ensures Load(s', job, commits) <= Load(s, job, commits)
  {
    OneMore(Answered(s.delivered), s.At(w).job, job);
    AnsweredOneMore(s.delivered, (s.At(w).job, s.At(w).message));
    LoadMoves(s, w, s', job, commits);
    hide Load, Answered;
  }

  lemma StepKeepsLoad(s: State, w: nat, s': State, job: Job, commits: bool, world: World)
    requires Step(s, w, s', world)
    ensures Load(s', job, commits) <= Load(s, job, commits)
  {
    hide Load, ValidPeer, Transact;
    match s.At(w)
    case Idle => TakesJob(s, w, s', job, commits);
    case Taken(_) => KeepsJob(s, w, s', job, commits);
    case Waiting(_) => KeepsJob(s, w, s', job, commits);
    case Updating(j, before, stage) =>
      TransactKeepsLoad(s, w, s', j, UpdateOf(world, j, before), stage, job, commits, world);
    case Answer(_, _) =>
      if s' == s.Go(w, Idle) { KeepsJob(s, w, s', job, commits); } else { DeliversJob(s, w, s', job, commits); }
  }

  lemma TransactKeepsLoad(s: State, w: nat, s': State, j: Job, u: Update, stage: Stage, job: Job, commits: bool,
                          world: World)
    requires j.username in world.store && s.At(w).Updating? && s.At(w).job == j
    requires Transact(s, w, s', j, u, stage, world)
    ensures Load(s', job, commits) <= Load(s, job, commits)
  {
    if s' == s.(files := s'.files) {
      assert Load(s', job, commits) == Load(s, job, commits);
    } else if s'.committed == s.committed {
      hide Load, Visible, Applied, Undone;
      KeepsJob(s, w, s', job, commits);
    } else {
      hide Load, Visible, Applied, Undone;
      CommitsJob(s, w, s', job, commits);
    }
  }

  lemma SubmitAddsLoad(s: State, s': State, job: Job, commits: bool)
    requires Submit(s, s')
    ensures Load(s', job, commits) <= Load(s, job, commits) + (if s'.queue == s.queue + [job] then 1 else 0)
  {
    var j :| s' == s.(queue := s.queue + [j]);
    OneMore(s.queue, j, job);
  }

  lemma {:induction false} LoadIsSubmitted(trace: seq<State>, initial: Files, world: World, job: Job, commits: bool)
    requires IsRun(trace, initial, world)
    ensures Load(trace[|trace| - 1], job, commits) <= Submissions(trace, job)
  {
    hide Load, Step, Submit;
    var n := |trace| - 1;
    if n == 0 {
      NothingYet(initial, job, commits);
    } else {
      var s, s' := trace[n - 1], trace[n];
      LoadIsSubmitted(trace[..n], initial, world, job, commits);
      assert Moves(trace[n - 1], trace[n - 1 + 1], world);
      if Submit(s, s') {
        SubmitAddsLoad(s, s', job, commits);
      } else {
        var w: nat :| w < WORKER_COUNT && Step(s, w, s', world);
        StepKeepsLoad(s, w, s', job, commits, world);
      }
    }
  }

  lemma NothingYet(initial: Files, job: Job, commits: bool)
    ensures Load(State(initial, None, map[], [], [], [], {}), job, commits) == 0
  {
    assert Hands(map[], job, commits) == {};
    assert Answered([]) == [];
  }

  /** A job is answered, and its update committed, at most as often as it was handed in. */
  lemma AnsweredOnce(trace: seq<State>, initial: Files, world: World, job: Job)
    requires IsRun(trace, initial, world)
    ensures multiset(Answered(trace[|trace| - 1].delivered))[job] <= Submissions(trace, job)
    ensures multiset(trace[|trace| - 1].committed)[job] <= Submissions(trace, job)
  {
    LoadIsSubmitted(trace, initial, world, job, false);
    LoadIsSubmitted(trace, initial, world, job, true);
  }

  // ---------------------------------------------------------------- a job that meets no fault

  function FileOf(job: Job, world: World): string
    requires job.username in world.store
  {
    BuildTincHost(world.store[job.username], job.pubkey)
  }

  lemma Enters(s: State, w: nat, job: Job, world: World)
    requires s.token == None && s.At(w) == Waiting(job)
    requires job.username in world.store && ValidPeer(world.ConfOf(job), world.v6)
    ensures Step(s, w, s.Go(w, Updating(job, s.files, Writing)).(token := Some(w)), world)
  {
    hide ValidPeer;
  }

  lemma Writes(s: State, w: nat, job: Job, world: World)
    requires job.username in world.store && s.At(w) == Updating(job, s.files, Writing)
    ensures
      var (u, after) := (UpdateOf(world, job, s.files), s.files[world.node(job.username) := FileOf(job, world)]);
      Applied(after, u) && Step(s, w, s.(files := after), world)
  {
    var u, after := UpdateOf(world, job, s.files), s.files[world.node(job.username) := FileOf(job, world)];
    assert Visible(after, u, false) && Applied(after, u);
    hide Applied, Visible;
  }

  lemma Reloads(s: State, w: nat, job: Job, before: Files, world: World)
    requires job.username in world.store && s.At(w) == Updating(job, before, Writing)
    requires Applied(s.files, UpdateOf(world, job, before))
    ensures Step(s, w, s.Go(w, Updating(job, before, Reloaded)), world)
  {
    hide Applied, Visible;
  }

  lemma Commits(s: State, w: nat, job: Job, before: Files, world: World)
    requires job.username in world.store && s.At(w) == Updating(job, before, Reloaded)
    requires Applied(s.files, UpdateOf(world, job, before))
    ensures Step(s, w, Committed(s, w, job, world.node(job.username), world), world)
  {
    hide Applied, Visible, Committed;
  }

  /** From the token to the new file, when nothing fails. */
  lemma CanWrite(s: State, w: nat, job: Job, world: World) returns (b: State, c: State)
    requires s.token == None && s.At(w) == Waiting(job)
    requires job.username in world.store && ValidPeer(world.ConfOf(job), world.v6)
    ensures Step(s, w, b, world) && Step(b, w, c, world)
    ensures c == s.Go(w, Updating(job, s.files, Writing)).(
        token := Some(w), files := s.files[world.node(job.username) := FileOf(job, world)])
    ensures Applied(c.files, UpdateOf(world, job, s.files))
  {
    b := s.Go(w, Updating(job, s.files, Writing)).(token := Some(w));
    c := b.(files := s.files[world.node(job.username) := FileOf(job, world)]);
    Enters(s, w, job, world);
    Writes(b, w, job, world);
    hide ValidPeer, Step, FileOf, Applied, UpdateOf;
  }

  /** From the new file to the commit. */
  lemma CanCommit(c: State, w: nat, job: Job, before: Files, world: World) returns (d: State, e: State)
    requires job.username in world.store && c.At(w) == Updating(job, before, Writing)
    requires Applied(c.files, UpdateOf(world, job, before))
    ensures Step(c, w, d, world) && Step(d, w, e, world)
    ensures e == Committed(c, w, job, world.node(job.username), world)
  {
    d := c.Go(w, Updating(job, before, Reloaded));
    Reloads(c, w, job, before, world);
    Commits(d, w, job, before, world);
    e := Committed(d, w, job, world.node(job.username), world);
    hide Step, Applied, UpdateOf, World.ConfigBody;
  }

  /** From the token to the commit in four steps. */
  lemma CanUpdate(s: State, w: nat, job: Job, world: World) returns (run: seq<State>)
    requires s.token == None && s.At(w) == Waiting(job)
    requires job.username in world.store && ValidPeer(world.ConfOf(job), world.v6)
    ensures StepsOf(run, w, world) && run[0] == s
    ensures run[|run| - 1] == s.Go(w, Answer(job, world.ConfigBody(job))).(
        files := s.files[world.node(job.username) := FileOf(job, world)],
        committed := s.committed + [job], broken := s.broken - {world.node(job.username)})
  {
    hide Step, ValidPeer, Applied, FileOf, UpdateOf;
    var b, c := CanWrite(s, w, job, world);
    var d, e := CanCommit(c, w, job, s.files, world);
    hide *;
    assert c.files == s.files[world.node(job.username) := FileOf(job, world)];
    CommittedInAll(s, c, w, job, world);
    run := FourSteps(s, b, c, d, e, w, world);
  }

  lemma FourSteps(a: State, b: State, c: State, d: State, e: State, w: nat, world: World) returns (run: seq<State>)
    requires Step(a, w, b, world) && Step(b, w, c, world) && Step(c, w, d, world) && Step(d, w, e, world)
    ensures StepsOf(run, w, world) && run[0] == a && run[|run| - 1] == e
  {
    hide Step;
    OneMoreStep([a], w, b, world);
    OneMoreStep([a] + [b], w, c, world);
    OneMoreStep([a] + [b] + [c], w, d, world);
    OneMoreStep([a] + [b] + [c] + [d], w, e, world);
    run := [a] + [b] + [c] + [d] + [e];
  }

  lemma CommittedInAll(s: State, d: State, w: nat, job: Job, world: World)
    requires job.username in world.store && s.token == None
    requires w in d.pc && d == s.Go(w, d.pc[w]).(token := d.token, files := d.files)
    ensures Committed(d, w, job, world.node(job.username), world) == s.Go(w, Answer(job, world.ConfigBody(job))).(
        files := d.files, committed := s.committed + [job], broken := s.broken - {world.node(job.username)})
  {
    hide World.ConfigBody;
    assert d.pc == s.pc[w := d.pc[w]];
    assert d.pc[w := Answer(job, world.ConfigBody(job))] == s.pc[w := Answer(job, world.ConfigBody(job))];
  }

  /** From the queue to the answer of a job that meets no fault. */
  lemma CanAnswer(s: State, w: nat, job: Job, world: World) returns (run: seq<State>)
    requires s.token == None && s.At(w) == Taken(job)
    requires job.username in world.store ==> ValidPeer(world.ConfOf(job), world.v6)
    ensures StepsOf(run, w, world) && run[0] == s && Served(s, run[|run| - 1], w, job, world)
  {
    hide ValidPeer, FileOf;
    if job.username in world.store {
      var waiting := s.Go(w, Waiting(job));
      run := CanUpdate(waiting, w, job, world);
      run := [s] + run;
    } else {
      run := [s] + [s.Go(w, Answer(job, USER_NOT_FOUND))];
    }
    var last := run[|run| - 1];
    var delivered := last.Go(w, Idle).(delivered := last.delivered + [(last.At(w).job, last.At(w).message)]);
    OneMoreStep(run, w, delivered, world);
    run := run + [delivered];
  }

  /** The job's answer went out: for a known user the configuration, with the file in place. */
  ghost predicate Served(s: State, t: State, w: nat, job: Job, world: World) {
    && t.token == None && t.queue == s.queue && t.At(w).Idle?
    && if job.username in world.store then
         && t.files == s.files[world.node(job.username) := FileOf(job, world)]
         && t.committed == s.committed + [job] && t.delivered == s.delivered + [(job, world.ConfigBody(job))]
       else
         t.files == s.files && t.committed == s.committed && t.delivered == s.delivered + [(job, USER_NOT_FOUND)]
  }

  lemma Extend(trace: seq<State>, s: State, initial: Files, world: World)
    requires IsRun(trace, initial, world) && Moves(trace[|trace| - 1], s, world)
    ensures IsRun(trace + [s], initial, world)
  {
    hide Moves;
  }

  lemma {:induction false} ExtendSteps(trace: seq<State>, run: seq<State>, w: nat, initial: Files, world: World)
    requires IsRun(trace, initial, world) && w < WORKER_COUNT
    requires StepsOf(run, w, world) && run[0] == trace[|trace| - 1]
    ensures IsRun(trace + run[1..], initial, world)
    decreases |run|
  {
    hide Step, Submit;
    if |run| == 1 {
      assert trace + run[1..] == trace;
    } else {
      assert Step(run[0], w, run[0 + 1], world);
      Extend(trace, run[1], initial, world);
      ExtendSteps(trace + [run[1]], run[1..], w, initial, world);
      assert trace + run[1..] == trace + [run[1]] + run[1..][1..];
    }
  }

  /** Wherever a run has got to with the token free, no job waiting and a worker idle, a new job
      can be answered: a valid one of a known user with its configuration, its file in place. */
  lemma CanServe(trace: seq<State>, initial: Files, world: World, w: nat, job: Job) returns (longer: seq<State>)
    requires IsRun(trace, initial, world) && w < WORKER_COUNT
    requires var s := trace[|trace| - 1]; s.token == None && s.queue == [] && s.At(w).Idle?
    requires job.username in world.store ==> ValidPeer(world.ConfOf(job), world.v6)
    ensures trace <= longer && IsRun(longer, initial, world)
    ensures Served(trace[|trace| - 1], longer[|longer| - 1], w, job, world)
  {
    hide ValidPeer, FileOf;
    var s := trace[|trace| - 1];
    var a := s.(queue := [job]);
    assert s.queue + [job] == [job] && Submit(s, a);
    Extend(trace, a, initial, world);
    var b := s.Go(w, Taken(job));
    assert a.queue[1..] == [] && Step(a, w, b, world);
    var run := CanAnswer(b, w, job, world);
    ServedFromTaken(s, run[|run| - 1], w, job, world);
    run := [a] + run;
    ExtendSteps(trace + [a], run, w, initial, world);
    longer := trace + [a] + run[1..];
  }

  lemma ServedFromTaken(s: State, t: State, w: nat, job: Job, world: World)
    requires Served(s.Go(w, Taken(job)), t, w, job, world)
    ensures Served(s, t, w, job, world)
  {
  }
}
