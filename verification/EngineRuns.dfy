/**
 What every interleaving of engine callers and workers keeps true of a run: one live task while it
 is queued or running, none once it is waiting, completed or failed, one task more than it yielded,
 and at most one terminal event in its log.
 */
module EngineRuns {
  import opened Options
  import opened EngineFencing
  import opened EngineModel
  import opened EngineLeases

  // ── What a run's log says ─────────────────────────────────────────────────────────────────

  predicate IsTerminal(e: Event) { e.RunWaiting? || e.RunCompleted? || e.RunFailed? }

  /** The terminal events of run `r`, in order. */
  function Terminals(events: seq<LoggedEvent>, r: RunId): seq<Event>
    decreases |events|
  {
    if events == [] then []
    else
      var last := events[|events| - 1];
      Terminals(events[..|events| - 1], r) + (if last.runId == r && IsTerminal(last.event) then [last.event] else [])
  }

  /** How often run `r` yielded. */
  function Yielded(events: seq<LoggedEvent>, r: RunId): nat
    decreases |events|
  {
    if events == [] then 0
    else
      var last := events[|events| - 1];
      Yielded(events[..|events| - 1], r) + (if last.runId == r && last.event.RunYielded? then 1 else 0)
  }

  lemma LogSaysMore(s: State, q: RunId, e: Event, r: RunId)
    ensures Terminals(Log(s, q, e).events, r)
         == Terminals(s.events, r) + (if q == r && IsTerminal(e) then [e] else [])
    ensures Yielded(Log(s, q, e).events, r)
         == Yielded(s.events, r) + (if q == r && e.RunYielded? then 1 else 0)
  {}

  // ── Safety of one run ─────────────────────────────────────────────────────────────────────

  predicate IsLive(s: State, r: RunId, t: Id) {
    t in s.tasks && s.tasks[t].runId == r && s.tasks[t].status in {Pending, Leased}
  }

  /** `t` is the one live task of run `r`. */
  predicate OnlyLive(s: State, r: RunId, t: Id) {
    IsLive(s, r, t) && forall u | u in s.tasks && IsLive(s, r, u) :: u == t
  }

  predicate NoneLive(s: State, r: RunId) {
    forall u | u in s.tasks :: !IsLive(s, r, u)
  }

  function TasksOf(s: State, r: RunId): set<Id> {
    set t | t in s.tasks && s.tasks[t].runId == r
  }

  predicate LiveFits(s: State, r: RunId)
    requires r in s.runs
  {
    match s.runs[r]
    case Queued => exists t | t in s.tasks :: OnlyLive(s, r, t) && s.tasks[t].status == Pending
    case Running => exists t | t in s.tasks :: OnlyLive(s, r, t) && s.tasks[t].status == Leased
    case _ => NoneLive(s, r)
  }

  predicate LogFits(s: State, r: RunId)
    requires r in s.runs
  {
    var log := Terminals(s.events, r);
    match s.runs[r]
    case Waiting => |log| == 1 && log[0].RunWaiting?
    case Completed => |log| == 1 && log[0].RunCompleted?
    case Failed => log == [] || (|log| == 1 && log[0].RunFailed?)
    case _ => log == []
  }

  predicate RunSafe(s: State, r: RunId)
    requires r in s.runs
  {
    && LiveFits(s, r)
    && LogFits(s, r)
    && |TasksOf(s, r)| == 1 + Yielded(s.events, r)
  }

  /** Every task was enqueued by the engine: one attempt, spent exactly when it is claimed. */
  predicate EngineTask(s: State, t: Id)
    requires t in s.tasks
  {
    var task := s.tasks[t];
    && task.maxAttempts == 1
    && task.runId in s.runs
    && (task.status == Pending ==> task.attempt == 0)
    && (task.status == Leased ==> task.attempt == 1)
  }

  /** A row that some worker read as pending, now or earlier. */
  predicate WasRead(s: State, c: Candidate) {
    c.id in s.tasks && c.runId == s.tasks[c.id].runId && c.attempt == 0 && c.maxAttempts == 1
  }

  ghost predicate RunInv(s: State, read: set<Candidate>) {
    && LeaseInv(s)
    && (forall t | t in s.tasks :: EngineTask(s, t))
    && (forall c | c in read :: WasRead(s, c))
    && (forall r | r in s.runs :: RunSafe(s, r))
    && (forall r | r !in s.runs :: Terminals(s.events, r) == [] && Yielded(s.events, r) == 0)
  }

  /** A run of which a step changes neither status, tasks nor log is as safe as before. */
  lemma RunUntouched(s: State, s': State, r: RunId)
    requires r in s.runs && RunSafe(s, r)
    requires r in s'.runs && s'.runs[r] == s.runs[r]
    requires TasksOf(s', r) == TasksOf(s, r)
    requires forall t | t in TasksOf(s, r) :: s'.tasks[t].status == s.tasks[t].status
    requires Terminals(s'.events, r) == Terminals(s.events, r) && Yielded(s'.events, r) == Yielded(s.events, r)
    ensures RunSafe(s', r)
  {
    forall u ensures IsLive(s', r, u) <==> IsLive(s, r, u) {
      if u in s.tasks && s.tasks[u].runId == r { assert u in TasksOf(s, r); }
      if u in s'.tasks && s'.tasks[u].runId == r { assert u in TasksOf(s', r); }
    }
    if s.runs[r] in {Queued, Running} {
      var t :| t in s.tasks && OnlyLive(s, r, t) &&
               s.tasks[t].status == (if s.runs[r] == Queued then Pending else Leased);
      assert t in TasksOf(s, r);
      assert OnlyLive(s', r, t);
    }
  }

  /** A leased task is the one live task of a running run, a pending one of a queued run. */
  lemma LiveTaskOfRun(s: State, read: set<Candidate>, t: Id)
    requires RunInv(s, read) && t in s.tasks && s.tasks[t].status in {Pending, Leased}
    ensures s.tasks[t].runId in s.runs
    ensures s.runs[s.tasks[t].runId] == (if s.tasks[t].status == Pending then Queued else Running)
    ensures OnlyLive(s, s.tasks[t].runId, t)
    ensures Terminals(s.events, s.tasks[t].runId) == []
  {}

  // ── Steps ─────────────────────────────────────────────────────────────────────────────────

  /** Only run `r`, its status, tasks and log, may have changed. */
  ghost predicate OnlyRunMoved(s: State, s': State, r: RunId) {
    && s'.runs.Keys == s.runs.Keys
    && (forall q | q in s.runs && q != r :: s'.runs[q] == s.runs[q])
    && (forall t | t in s.tasks :: t in s'.tasks && s'.tasks[t].runId == s.tasks[t].runId)
    && (forall t | t in s.tasks && s.tasks[t].runId != r :: s'.tasks[t].status == s.tasks[t].status)
    && (forall t | t in s'.tasks && t !in s.tasks :: s'.tasks[t].runId == r)
    && (forall q | q != r ::
          Terminals(s'.events, q) == Terminals(s.events, q) && Yielded(s'.events, q) == Yielded(s.events, q))
  }

  lemma OtherRunsSafe(s: State, s': State, r: RunId, q: RunId)
    requires OnlyRunMoved(s, s', r) && q != r && q in s.runs && RunSafe(s, q)
    ensures RunSafe(s', q)
  {
    assert TasksOf(s', q) == TasksOf(s, q) by {
      forall t ensures t in TasksOf(s', q) <==> t in TasksOf(s, q) {}
    }
    RunUntouched(s, s', q);
  }

  /** What is left to show of a step that moves one run. */
  lemma RunMoves(s: State, s': State, r: RunId, read: set<Candidate>)
    requires RunInv(s, read) && r in s.runs && LeaseInv(s') && OnlyRunMoved(s, s', r)
    requires forall t | t in s'.tasks :: EngineTask(s', t)
    requires RunSafe(s', r)
    ensures RunInv(s', read)
  {
    forall q | q in s'.runs ensures RunSafe(s', q) {
      if q != r { OtherRunsSafe(s, s', r, q); }
    }
    forall c | c in read ensures WasRead(s', c) {
      assert WasRead(s, c);
      assert EngineTask(s', c.id);
    }
  }

  /** A step that leaves statuses, tasks and the telling part of the log alone. */
  lemma NothingMoves(s: State, s': State, read: set<Candidate>)
    requires RunInv(s, read) && LeaseInv(s')
    requires s'.runs == s.runs && s'.tasks.Keys == s.tasks.Keys
    requires forall t | t in s.tasks ::
      && s'.tasks[t].runId == s.tasks[t].runId && s'.tasks[t].status == s.tasks[t].status
      && s'.tasks[t].attempt == s.tasks[t].attempt && s'.tasks[t].maxAttempts == s.tasks[t].maxAttempts
    requires forall q ::
      Terminals(s'.events, q) == Terminals(s.events, q) && Yielded(s'.events, q) == Yielded(s.events, q)
    ensures RunInv(s', read)
  {
    forall t | t in s'.tasks ensures EngineTask(s', t) { assert EngineTask(s, t); }
    forall q | q in s'.runs ensures RunSafe(s', q) {
      assert TasksOf(s', q) == TasksOf(s, q);
      RunUntouched(s, s', q);
    }
    forall c | c in read ensures WasRead(s', c) { assert WasRead(s, c); }
  }

  lemma FreshRunSafe(s: State, r: RunId, kind: TaskKind, read: set<Candidate>)
    requires RunInv(s, read) && r !in s.runs
    ensures RunSafe(StartRun(s, r, kind), r)
  {
    var s', t := StartRun(s, r, kind), s.nextId;
    forall u | u in s.tasks ensures s.tasks[u].runId != r && u != t { assert EngineTask(s, u); }
    assert TasksOf(s', r) == {t};
    assert OnlyLive(s', r, t);
  }

  lemma StartLeavesRunSafe(s: State, r: RunId, kind: TaskKind, read: set<Candidate>, q: RunId)
    requires RunInv(s, read) && r !in s.runs && q in s.runs
    ensures RunSafe(StartRun(s, r, kind), q)
  {
    assert s.nextId !in s.tasks;
    assert TasksOf(StartRun(s, r, kind), q) == TasksOf(s, q);
    RunUntouched(s, StartRun(s, r, kind), q);
  }

  lemma StartKeepsRuns(s: State, r: RunId, kind: TaskKind, read: set<Candidate>)
    requires RunInv(s, read)
    ensures RunInv(StartRun(s, r, kind), read)
  {
    var s' := StartRun(s, r, kind);
    if r !in s.runs {
      ApplyKeepsLeaseInv(s, Starting(r, kind));
      FreshRunSafe(s, r, kind, read);
      forall q | q in s.runs ensures RunSafe(s', q) { StartLeavesRunSafe(s, r, kind, read, q); }
      forall u | u in s'.tasks ensures EngineTask(s', u) { if u != s.nextId { assert EngineTask(s, u); } }
      forall c | c in read ensures WasRead(s', c) { assert WasRead(s, c); }
    }
  }

  /** The live task of a run changes status, and the run with it. */
  lemma LiveTaskMoves(s: State, s': State, r: RunId, t: Id)
    requires r in s.runs && OnlyLive(s, r, t)
    requires s'.tasks.Keys == s.tasks.Keys
    requires forall u | u in s.tasks && u != t :: s'.tasks[u] == s.tasks[u]
    requires s'.tasks[t].runId == r
    ensures TasksOf(s', r) == TasksOf(s, r)
    ensures if s'.tasks[t].status in {Pending, Leased} then OnlyLive(s', r, t) else NoneLive(s', r)
  {}

  /** The live task `t` of run `r` becomes `x` and the run moves to `status`, logging `log`. */
  ghost predicate TaskTurns(s: State, s': State, r: RunId, t: Id, x: Task, status: RunStatus, log: seq<Event>) {
    && r in s.runs && t in s.tasks
    && s'.tasks == s.tasks[t := x]
    && s'.runs == s.runs[r := status]
    && x.runId == r && x.maxAttempts == 1
    && (x.status == Pending ==> x.attempt == 0)
    && (x.status == Leased ==> x.attempt == 1)
    && (forall q ::
          && Terminals(s'.events, q) == Terminals(s.events, q) + (if q == r then log else [])
          && Yielded(s'.events, q) == Yielded(s.events, q))
  }

  /** The new status of a run fits the new status of its task and what was logged. */
  predicate TurnFits(x: Task, status: RunStatus, log: seq<Event>) {
    match status
    case Queued => false
    case Running => x.status == Leased && log == []
    case Waiting => x.status in {Done, Dead} && |log| == 1 && log[0].RunWaiting?
    case Completed => x.status in {Done, Dead} && |log| == 1 && log[0].RunCompleted?
    case Failed => x.status in {Done, Dead} && |log| == 1 && log[0].RunFailed?
  }

  lemma TurnedRunSafe(s: State, s': State, r: RunId, t: Id, x: Task, status: RunStatus, log: seq<Event>)
    requires TaskTurns(s, s', r, t, x, status, log) && TurnFits(x, status, log)
    requires RunSafe(s, r) && OnlyLive(s, r, t) && Terminals(s.events, r) == []
    ensures RunSafe(s', r)
  {
    LiveTaskMoves(s, s', r, t);
    assert Terminals(s'.events, r) == log;
  }

  lemma TurnMovesOneRun(s: State, s': State, r: RunId, t: Id, x: Task, status: RunStatus, log: seq<Event>)
    requires TaskTurns(s, s', r, t, x, status, log) && s.tasks[t].runId == r
    ensures OnlyRunMoved(s, s', r)
  {}

  lemma EngineTasksAfter(s: State, s': State, read: set<Candidate>)
    requires RunInv(s, read) && s'.runs.Keys == s.runs.Keys
    requires forall u | u in s'.tasks :: (u in s.tasks && s'.tasks[u] == s.tasks[u]) || EngineTask(s', u)
    ensures forall u | u in s'.tasks :: EngineTask(s', u)
  {
    forall u | u in s'.tasks ensures EngineTask(s', u) { if u in s.tasks { assert EngineTask(s, u); } }
  }

  lemma TurnLeavesRunSafe(s: State, s': State, t: Id, x: Task, status: RunStatus, log: seq<Event>, read: set<Candidate>)
    requires RunInv(s, read)
    requires t in s.tasks && s.tasks[t].status in {Pending, Leased}
    requires TaskTurns(s, s', s.tasks[t].runId, t, x, status, log) && TurnFits(x, status, log)
    ensures RunSafe(s', s.tasks[t].runId)
  {
    LiveTaskOfRun(s, read, t);
    assert RunSafe(s, s.tasks[t].runId);
    TurnedRunSafe(s, s', s.tasks[t].runId, t, x, status, log);
  }

  lemma TurnKeepsTasks(s: State, s': State, r: RunId, t: Id, x: Task, status: RunStatus, log: seq<Event>,
                       read: set<Candidate>)
    requires RunInv(s, read) && TaskTurns(s, s', r, t, x, status, log)
    ensures forall u | u in s'.tasks :: EngineTask(s', u)
  {
    EngineTasksAfter(s, s', read);
  }

  lemma TurnKeepsRuns(s: State, s': State, t: Id, x: Task, status: RunStatus, log: seq<Event>, read: set<Candidate>)
    requires RunInv(s, read) && LeaseInv(s')
    requires t in s.tasks && s.tasks[t].status in {Pending, Leased}
    requires TaskTurns(s, s', s.tasks[t].runId, t, x, status, log) && TurnFits(x, status, log)
    ensures RunInv(s', read)
  {
    var r := s.tasks[t].runId;
    TurnLeavesRunSafe(s, s', t, x, status, log, read);
    TurnMovesOneRun(s, s', r, t, x, status, log);
    TurnKeepsTasks(s, s', r, t, x, status, log, read);
    RunMoves(s, s', r, read);
  }

  lemma LeaseOutTurns(s: State, c: Candidate, at: int, worker: string, ttl: int)
    requires c.id in s.tasks && s.tasks[c.id].runId in s.runs && s.tasks[c.id].maxAttempts == 1 && c.attempt == 0
    ensures var s' := LeaseOut(s, c, at, worker, ttl);
      TaskTurns(s, s', s.tasks[c.id].runId, c.id, s'.tasks[c.id], Running, []) && TurnFits(s'.tasks[c.id], Running, [])
  {}

  lemma LeaseOutKeepsRuns(s: State, c: Candidate, at: int, worker: string, ttl: int, read: set<Candidate>)
    requires RunInv(s, read) && c in read && StillPending(s, c.id)
    ensures RunInv(LeaseOut(s, c, at, worker, ttl), read)
  {
    var s' := LeaseOut(s, c, at, worker, ttl);
    LeaseOutKeepsInv(s, c, at, worker, ttl);
    assert WasRead(s, c) && EngineTask(s, c.id);
    LeaseOutTurns(s, c, at, worker, ttl);
    TurnKeepsRuns(s, s', c.id, s'.tasks[c.id], Running, [], read);
  }

  lemma ClaimKeepsRuns(s: State, c: Candidate, at: int, worker: string, ttl: int, read: set<Candidate>)
    requires RunInv(s, read) && c in read
    ensures RunInv(TryClaim(s, c, at, worker, ttl).0, read)
  {
    assert WasRead(s, c);
    if StillPending(s, c.id) {
      LeaseOutKeepsRuns(s, c, at, worker, ttl, read);
    } else {
      TryClaimKeepsInv(s, c, at, worker, ttl);
      NothingMoves(s, TryClaim(s, c, at, worker, ttl).0, read);
    }
  }

  lemma HeartbeatMovesNothing(s: State, l: Id, token: Id, ttl: int)
    ensures var s' := Heartbeat(s, l, token, ttl);
      && s'.runs == s.runs && s'.events == s.events && s'.tasks.Keys == s.tasks.Keys
      && forall t | t in s.tasks ::
           && s'.tasks[t].runId == s.tasks[t].runId && s'.tasks[t].status == s.tasks[t].status
           && s'.tasks[t].attempt == s.tasks[t].attempt && s'.tasks[t].maxAttempts == s.tasks[t].maxAttempts
  {}

  lemma HeartbeatKeepsRuns(s: State, l: Id, token: Id, ttl: int, read: set<Candidate>)
    requires RunInv(s, read)
    ensures RunInv(Heartbeat(s, l, token, ttl), read)
  {
    HeartbeatKeepsInv(s, l, token, ttl);
    HeartbeatMovesNothing(s, l, token, ttl);
    NothingMoves(s, Heartbeat(s, l, token, ttl), read);
  }

  lemma AnnounceKeepsRuns(s: State, t: Id, read: set<Candidate>)
    requires RunInv(s, read)
    ensures RunInv(Apply(s, Announcing(t)), read)
  {
    if t in s.tasks {
      var s' := Apply(s, Announcing(t));
      LogKeepsInv(s, s.tasks[t].runId, RunStarted(t));
      forall q
        ensures Terminals(s'.events, q) == Terminals(s.events, q) && Yielded(s'.events, q) == Yielded(s.events, q)
      {
        LogSaysMore(s, s.tasks[t].runId, RunStarted(t), q);
      }
      NothingMoves(s, s', read);
    }
  }

  // ── Reaping ───────────────────────────────────────────────────────────────────────────────

  /** A reaped engine task is dead, and its run has failed without a log entry. */
  lemma ReapedRunSafe(s: State, r: RunId, t: Id)
    requires r in s.runs && RunSafe(s, r) && OnlyLive(s, r, t) && Terminals(s.events, r) == []
    requires Holds(s, t, ExpiredLeases(s)) && s.tasks[t].attempt == s.tasks[t].maxAttempts
    ensures RunSafe(Reap(s), r)
  {
    var s' := Reap(s);
    assert RunLosesTask(s, r, ExpiredLeases(s));
    assert s'.runs[r] == Failed;
    assert TasksOf(s', r) == TasksOf(s, r);
    forall u | u in s'.tasks ensures !IsLive(s', r, u) {
      if u != t { assert !IsLive(s, r, u); }
    }
  }

  lemma ReapOfAHeldTask(s: State, read: set<Candidate>, r: RunId, t: Id)
    requires RunInv(s, read) && r in s.runs
    requires t in s.tasks && Holds(s, t, ExpiredLeases(s)) && s.tasks[t].runId == r
    ensures RunSafe(Reap(s), r)
  {
    LiveTaskOfRun(s, read, t);
    assert EngineTask(s, t);
    ReapedRunSafe(s, r, t);
  }

  lemma ReapOfNoTask(s: State, r: RunId)
    requires r in s.runs && RunSafe(s, r)
    requires forall t | t in s.tasks && s.tasks[t].runId == r :: !Holds(s, t, ExpiredLeases(s))
    ensures RunSafe(Reap(s), r)
  {
    assert TasksOf(Reap(s), r) == TasksOf(s, r);
    RunUntouched(s, Reap(s), r);
  }

  lemma ReapLeavesRunSafe(s: State, read: set<Candidate>, r: RunId)
    requires RunInv(s, read) && r in s.runs
    ensures RunSafe(Reap(s), r)
  {
    if t :| t in s.tasks && s.tasks[t].runId == r && Holds(s, t, ExpiredLeases(s)) {
      ReapOfAHeldTask(s, read, r, t);
    } else {
      ReapOfNoTask(s, r);
    }
  }

  lemma ReapKeepsRuns(s: State, read: set<Candidate>)
    requires RunInv(s, read)
    ensures RunInv(Reap(s), read)
  {
    var s' := Reap(s);
    TakeLeasesKeepsInv(s, ExpiredLeases(s));
    forall r | r in s'.runs ensures RunSafe(s', r) { ReapLeavesRunSafe(s, read, r); }
    ReapKeepsTasks(s, read);
  }

  lemma ReapKeepsTasks(s: State, read: set<Candidate>)
    requires forall t | t in s.tasks :: EngineTask(s, t)
    requires forall c | c in read :: WasRead(s, c)
    ensures forall t | t in Reap(s).tasks :: EngineTask(Reap(s), t)
    ensures forall c | c in read :: WasRead(Reap(s), c)
  {
    var s' := Reap(s);
    forall t | t in s'.tasks ensures EngineTask(s', t) { assert EngineTask(s, t); }
    forall c | c in read ensures WasRead(s', c) { assert WasRead(s, c); }
  }

  // ── Terminal transactions ─────────────────────────────────────────────────────────────────

  /** Ending a slice for good: the task is done and the run stops with one terminal event. */
  lemma StopTurns(s: State, t: Id, token: Id, outcome: Outcome)
    requires CompleteSucceeds(s, t, token) && !outcome.Yields?
    requires s.tasks[t].runId in s.runs && s.tasks[t].maxAttempts == 1
    ensures var s', status := Finish(s, t, token, outcome), if outcome.Waits? then Waiting else Completed;
      var log := [if outcome.Waits? then RunWaiting(t) else RunCompleted(t)];
      TaskTurns(s, s', s.tasks[t].runId, t, s'.tasks[t], status, log) && TurnFits(s'.tasks[t], status, log)
  {
    var s', r := Finish(s, t, token, outcome), s.tasks[t].runId;
    var event := if outcome.Waits? then RunWaiting(t) else RunCompleted(t);
    var s1 := SetRun(EngineModel.CompleteTask(s, t, token), r, if outcome.Waits? then Waiting else Completed);
    assert s' == Log(s1, r, event);
    forall q
      ensures Terminals(s'.events, q) == Terminals(s.events, q) + (if q == r then [event] else [])
      ensures Yielded(s'.events, q) == Yielded(s.events, q)
    {
      LogSaysMore(s1, r, event, q);
    }
  }

  lemma StopKeepsRuns(s: State, t: Id, token: Id, outcome: Outcome, read: set<Candidate>)
    requires RunInv(s, read) && CompleteSucceeds(s, t, token) && !outcome.Yields?
    ensures RunInv(Finish(s, t, token, outcome), read)
  {
    var s' := Finish(s, t, token, outcome);
    FinishKeepsInv(s, t, token, outcome);
    assert EngineTask(s, t);
    StopTurns(s, t, token, outcome);
    TurnKeepsRuns(s, s', t, s'.tasks[t], if outcome.Waits? then Waiting else Completed,
                  [if outcome.Waits? then RunWaiting(t) else RunCompleted(t)], read);
  }

  lemma YieldLogs(s: State, t: Id, token: Id, cp: string, q: RunId)
    requires CompleteSucceeds(s, t, token)
    ensures var s' := Finish(s, t, token, Yields(cp));
      && Terminals(s'.events, q) == Terminals(s.events, q)
      && Yielded(s'.events, q) == Yielded(s.events, q) + (if q == s.tasks[t].runId then 1 else 0)
  {}

  /** A yield replaces the one live task by exactly one resume task, due at once. */
  lemma YieldReplacesTask(s: State, t: Id, token: Id, cp: string)
    requires LeaseInv(s) && CompleteSucceeds(s, t, token)
    ensures var s', next := Finish(s, t, token, Yields(cp)), s.nextId;
      && next !in s.tasks
      && s'.tasks == s.tasks[t := s.tasks[t].(status := Done)]
                            [next := NewTask(s.tasks[t].runId, ResumeCheckpoint(cp), s.now, 1, DEFAULT_RETRY_DELAY_MS)]
      && s'.runs == (if s.tasks[t].runId in s.runs then s.runs[s.tasks[t].runId := Queued] else s.runs)
      && s'.leases == s.leases - {s.tasks[t].leaseId.value}
  {}

  /** The run of a yielding task has one live task again, the new one. */
  lemma YieldedRunSafe(s: State, s': State, r: RunId, t: Id, next: Id, x: Task, y: Task)
    requires r in s.runs && RunSafe(s, r) && OnlyLive(s, r, t) && Terminals(s.events, r) == []
    requires next !in s.tasks && s'.tasks == s.tasks[t := x][next := y]
    requires s'.runs == s.runs[r := Queued]
    requires x.runId == y.runId == r && x.status == Done && y.status == Pending
    requires Terminals(s'.events, r) == [] && Yielded(s'.events, r) == Yielded(s.events, r) + 1
    ensures RunSafe(s', r)
  {
    forall u | u in s'.tasks && u != next ensures !IsLive(s', r, u) {
      if u != t { assert !IsLive(s, r, u); }
    }
    assert OnlyLive(s', r, next);
    assert TasksOf(s', r) == TasksOf(s, r) + {next};
  }

  lemma YieldMovesOneRun(s: State, t: Id, token: Id, cp: string)
    requires LeaseInv(s) && CompleteSucceeds(s, t, token) && s.tasks[t].runId in s.runs
    ensures OnlyRunMoved(s, Finish(s, t, token, Yields(cp)), s.tasks[t].runId)
  {
    YieldReplacesTask(s, t, token, cp);
    forall q { YieldLogs(s, t, token, cp, q); }
  }

  lemma YieldLeavesRunSafe(s: State, t: Id, token: Id, cp: string, read: set<Candidate>)
    requires RunInv(s, read) && CompleteSucceeds(s, t, token)
    ensures s.tasks[t].runId in s.runs && RunSafe(Finish(s, t, token, Yields(cp)), s.tasks[t].runId)
  {
    var s', r, next := Finish(s, t, token, Yields(cp)), s.tasks[t].runId, s.nextId;
    LiveTaskOfRun(s, read, t);
    YieldReplacesTask(s, t, token, cp);
    YieldLogs(s, t, token, cp, r);
    assert RunSafe(s, r);
    YieldedRunSafe(s, s', r, t, next, s'.tasks[t], s'.tasks[next]);
  }

  lemma YieldKeepsRuns(s: State, t: Id, token: Id, cp: string, read: set<Candidate>)
    requires RunInv(s, read) && CompleteSucceeds(s, t, token)
    ensures RunInv(Finish(s, t, token, Yields(cp)), read)
  {
    var s' := Finish(s, t, token, Yields(cp));
    FinishKeepsInv(s, t, token, Yields(cp));
    YieldReplacesTask(s, t, token, cp);
    YieldLeavesRunSafe(s, t, token, cp, read);
    YieldMovesOneRun(s, t, token, cp);
    EngineTasksAfter(s, s', read);
    RunMoves(s, s', s.tasks[t].runId, read);
  }

  lemma FailTurns(s: State, t: Id, token: Id)
    requires FailSucceeds(s, t, token)
    requires s.tasks[t].runId in s.runs && s.tasks[t].maxAttempts == s.tasks[t].attempt == 1
    ensures var s' := FailClaim(s, t, token);
      && TaskTurns(s, s', s.tasks[t].runId, t, s'.tasks[t], Failed, [RunFailed(t)])
      && TurnFits(s'.tasks[t], Failed, [RunFailed(t)])
  {
    var s', r := FailClaim(s, t, token), s.tasks[t].runId;
    var s1 := FailTask(s, t, token);
    var s2 := SetRun(Log(s1, r, TaskFailed(t)), r, Failed);
    assert s' == Log(s2, r, RunFailed(t));
    forall q
      ensures Terminals(s'.events, q) == Terminals(s.events, q) + (if q == r then [RunFailed(t)] else [])
      ensures Yielded(s'.events, q) == Yielded(s.events, q)
    {
      LogSaysMore(s1, r, TaskFailed(t), q);
      LogSaysMore(s2, r, RunFailed(t), q);
    }
  }

  lemma FailKeepsRuns(s: State, t: Id, token: Id, read: set<Candidate>)
    requires RunInv(s, read)
    ensures RunInv(FailClaim(s, t, token), read)
  {
    var s' := FailClaim(s, t, token);
    FailClaimKeepsInv(s, t, token);
    if ValidLease(s, t, token) {
      assert LeaseMatchesTask(s, s.tasks[t].leaseId.value);
      assert EngineTask(s, t);
      FailTurns(s, t, token);
      TurnKeepsRuns(s, s', t, s'.tasks[t], Failed, [RunFailed(t)], read);
    }
  }

  // ── Every run of the engine ───────────────────────────────────────────────────────────────

  /** The steps the engine and its workers take: tasks come only from run starts and yields, and a
      claim works on a row that was read as pending now or at some earlier point of the run. */
  predicate EngineStep(step: Step, read: set<Candidate>) {
    match step
    case Claiming(c, _, _, _) => c in read
    case Enqueueing(_, _, _, _, _) => false
    case CompletingTask(_, _) => false
    case FailingTask(_, _) => false
    case _ => true
  }

  predicate EngineRun(s: State, read: set<Candidate>, steps: seq<Step>)
    decreases |steps|
  {
    steps == [] ||
    (EngineStep(steps[0], read + PendingRows(s)) && EngineRun(Apply(s, steps[0]), read + PendingRows(s), steps[1..]))
  }

  lemma StepKeepsRuns(s: State, step: Step, read: set<Candidate>)
    requires RunInv(s, read) && EngineStep(step, read)
    ensures RunInv(Apply(s, step), read)
  {
    match step
    case Advance(ms) =>
      ApplyKeepsLeaseInv(s, step);
      NothingMoves(s, Apply(s, step), read);
    case Starting(r, kind) => StartKeepsRuns(s, r, kind, read);
    case Reaping => ReapKeepsRuns(s, read);
    case Claiming(c, at, worker, ttl) => ClaimKeepsRuns(s, c, at, worker, ttl, read);
    case Beating(l, token, ttl) => HeartbeatKeepsRuns(s, l, token, ttl, read);
    case Announcing(t) => AnnounceKeepsRuns(s, t, read);
    case Finishing(t, token, outcome) =>
      if CompleteSucceeds(s, t, token) {
        if outcome.Yields? { YieldKeepsRuns(s, t, token, outcome.checkpointId, read); }
        else { StopKeepsRuns(s, t, token, outcome, read); }
      }
    case FailingClaim(t, token) => FailKeepsRuns(s, t, token, read);
    case _ =>
  }

  lemma ReadingKeepsRuns(s: State, read: set<Candidate>)
    requires RunInv(s, read)
    ensures RunInv(s, read + PendingRows(s))
  {}

  /** Over any interleaving, every run in the table is safe: exactly one live task while queued or
      running, none after, one more task than it yielded, and at most one terminal event. */
  lemma {:induction false} EveryRunStaysSafe(s: State, read: set<Candidate>, steps: seq<Step>)
    requires RunInv(s, read) && EngineRun(s, read, steps)
    ensures RunInv(Exec(s, steps), ReadDuring(s, read, steps))
    decreases |steps|
  {
    if steps == [] {
    } else {
      ReadingKeepsRuns(s, read);
      StepKeepsRuns(s, steps[0], read + PendingRows(s));
      EveryRunStaysSafe(Apply(s, steps[0]), read + PendingRows(s), steps[1..]);
    }
  }

  /** From the empty tables, at most one of run.completed, run.waiting_approval and run.failed is ever
      logged for a run, and the task table tells how often it yielded. */
  lemma AtMostOneTerminalEvent(now: int, steps: seq<Step>, r: RunId)
    requires EngineRun(Init(now), {}, steps)
    ensures var s := Exec(Init(now), steps);
      && |Terminals(s.events, r)| <= 1
      && (r in s.runs ==> |TasksOf(s, r)| == 1 + Yielded(s.events, r))
      && (r in s.runs && s.runs[r] in {Queued, Running} <==> exists t | t in s.tasks :: OnlyLive(s, r, t))
  {
    EveryRunStaysSafe(Init(now), {}, steps);
    var s := Exec(Init(now), steps);
    if r in s.runs { assert RunSafe(s, r); }
    if t :| t in s.tasks && OnlyLive(s, r, t) { assert EngineTask(s, t); }
  }

  /** What workers may have read by the end of a run. */
  function ReadDuring(s: State, read: set<Candidate>, steps: seq<Step>): set<Candidate>
    decreases |steps|
  {
    if steps == [] then read else ReadDuring(Apply(s, steps[0]), read + PendingRows(s), steps[1..])
  }

  // ── Claims of engine tasks ────────────────────────────────────────────────────────────────

  /** A task of the engine is claimed on its row as it stands, because a pending one has no attempts. */
  lemma {:induction false} EngineRunsAreCurrent(s: State, read: set<Candidate>, steps: seq<Step>)
    requires RunInv(s, read) && EngineRun(s, read, steps)
    ensures RunCurrent(s, steps)
    decreases |steps|
  {
    if steps != [] {
      var seen := read + PendingRows(s);
      ReadingKeepsRuns(s, read);
      StepKeepsRuns(s, steps[0], seen);
      EngineRunsAreCurrent(Apply(s, steps[0]), seen, steps[1..]);
      if steps[0].Claiming? && StillPending(s, steps[0].candidate.id) {
        assert WasRead(s, steps[0].candidate) && EngineTask(s, steps[0].candidate.id);
      }
    }
  }

  /** Over any interleaving, stale candidates included, a task the engine started is claimed at most
      once. */
  lemma EngineTaskClaimedAtMostOnce(now: int, steps: seq<Step>, t: Id)
    requires EngineRun(Init(now), {}, steps)
    ensures ClaimsOf(ExecCounted(Counted(Init(now), map[]), steps), t) <= 1
  {
    var w := Counted(Init(now), map[]);
    EveryRunStaysSafe(Init(now), {}, steps);
    EngineRunsAreCurrent(Init(now), {}, steps);
    ClaimedExactlyAttemptTimes(w, steps);
    if t in Exec(Init(now), steps).tasks {
      assert EngineTask(Exec(Init(now), steps), t) && AttemptIsClaims(ExecCounted(w, steps), t);
    } else {
      OnlyTasksAreClaimed(w, steps, t);
    }
  }

  lemma {:induction false} OnlyTasksAreClaimed(w: Counted, steps: seq<Step>, t: Id)
    requires t in w.claims ==> t in w.s.tasks
    ensures t in ExecCounted(w, steps).claims ==> t in ExecCounted(w, steps).s.tasks
    decreases |steps|
  {
    if steps != [] {
      TasksStay(w.s, steps[0]);
      OnlyTasksAreClaimed(ApplyCounted(w, steps[0]), steps[1..], t);
    }
  }

  lemma TasksStay(s: State, step: Step)
    ensures forall t | t in s.tasks :: t in Apply(s, step).tasks
  {
    match step
    case Claiming(c, at, worker, ttl) =>
    case Finishing(t, token, outcome) =>
    case FailingClaim(t, token) =>
    case _ =>
  }

  // ── How a run came to fail ────────────────────────────────────────────────────────────────

  /** Some reap of the run retired the run's task for good. */
  predicate ReapedIn(s: State, steps: seq<Step>, r: RunId)
    decreases |steps|
  {
    steps != [] && (RunIsReaped(s, steps[0], r) || ReapedIn(Apply(s, steps[0]), steps[1..], r))
  }

  predicate RunIsReaped(s: State, step: Step, r: RunId) {
    step.Reaping? && r in s.runs && RunLosesTask(s, r, ExpiredLeases(s))
  }

  /** Some worker failed the run's task under a valid lease. */
  predicate WorkerFailedIn(s: State, steps: seq<Step>, r: RunId)
    decreases |steps|
  {
    steps != [] && (WorkerFails(s, steps[0], r) || WorkerFailedIn(Apply(s, steps[0]), steps[1..], r))
  }

  predicate WorkerFails(s: State, step: Step, r: RunId) {
    step.FailingClaim? && FailSucceeds(s, step.taskId, step.token) && s.tasks[step.taskId].runId == r
  }

  /** Failed, and nothing terminal in the log. */
  predicate FailedSilently(s: State, r: RunId) { r in s.runs && s.runs[r] == Failed && Terminals(s.events, r) == [] }

  /** Failed, with its one run.failed event. */
  predicate FailedLoudly(s: State, r: RunId) {
    r in s.runs && s.runs[r] == Failed && |Terminals(s.events, r)| == 1 && Terminals(s.events, r)[0].RunFailed?
  }

  /** Status and terminal events of run `r` are as they were. */
  predicate SameEnd(s: State, s': State, r: RunId) {
    && (r in s'.runs <==> r in s.runs) && (r in s.runs ==> s'.runs[r] == s.runs[r])
    && Terminals(s'.events, r) == Terminals(s.events, r)
  }

  /** A live task's turn ends its own run as the turn says, and no other. */
  lemma TurnFails(s: State, s': State, t: Id, x: Task, status: RunStatus, log: seq<Event>,
                  read: set<Candidate>, r: RunId)
    requires RunInv(s, read) && t in s.tasks && s.tasks[t].status in {Pending, Leased}
    requires TaskTurns(s, s', s.tasks[t].runId, t, x, status, log) && TurnFits(x, status, log)
    ensures FailedSilently(s', r) <==> FailedSilently(s, r)
    ensures FailedLoudly(s', r) <==> FailedLoudly(s, r) || (r == s.tasks[t].runId && status == Failed)
  {
    LiveTaskOfRun(s, read, t);
    if r != s.tasks[t].runId { assert SameEnd(s, s', r); }
  }

  lemma ClaimFails(s: State, c: Candidate, at: int, worker: string, ttl: int, read: set<Candidate>, r: RunId)
    requires RunInv(s, read) && c in read
    ensures var s' := TryClaim(s, c, at, worker, ttl).0;
      (FailedSilently(s', r) <==> FailedSilently(s, r)) && (FailedLoudly(s', r) <==> FailedLoudly(s, r))
  {
    assert WasRead(s, c);
    if StillPending(s, c.id) {
      assert EngineTask(s, c.id);
      var s' := LeaseOut(s, c, at, worker, ttl);
      LeaseOutTurns(s, c, at, worker, ttl);
      TurnFails(s, s', c.id, s'.tasks[c.id], Running, [], read, r);
    } else {
      assert SameEnd(s, TryClaim(s, c, at, worker, ttl).0, r);
    }
  }

  lemma FinishFails(s: State, t: Id, token: Id, outcome: Outcome, read: set<Candidate>, r: RunId)
    requires RunInv(s, read)
    ensures var s' := Finish(s, t, token, outcome);
      (FailedSilently(s', r) <==> FailedSilently(s, r)) && (FailedLoudly(s', r) <==> FailedLoudly(s, r))
  {
    if CompleteSucceeds(s, t, token) {
      assert EngineTask(s, t);
      var s' := Finish(s, t, token, outcome);
      LiveTaskOfRun(s, read, t);
      if outcome.Yields? {
        YieldLogs(s, t, token, outcome.checkpointId, r);
        if r != s.tasks[t].runId { assert SameEnd(s, s', r); }
      } else {
        StopTurns(s, t, token, outcome);
        TurnFails(s, s', t, s'.tasks[t], if outcome.Waits? then Waiting else Completed,
                  [if outcome.Waits? then RunWaiting(t) else RunCompleted(t)], read, r);
      }
    }
  }

  lemma FailClaimFails(s: State, t: Id, token: Id, read: set<Candidate>, r: RunId)
    requires RunInv(s, read)
    ensures var s' := FailClaim(s, t, token);
      && (FailedSilently(s', r) <==> FailedSilently(s, r))
      && (FailedLoudly(s', r) <==> FailedLoudly(s, r) || WorkerFails(s, FailingClaim(t, token), r))
  {
    if ValidLease(s, t, token) {
      assert LeaseMatchesTask(s, s.tasks[t].leaseId.value);
      assert EngineTask(s, t);
      FailTurns(s, t, token);
      TurnFails(s, FailClaim(s, t, token), t, FailClaim(s, t, token).tasks[t], Failed, [RunFailed(t)], read, r);
    }
  }

  lemma ReapFails(s: State, read: set<Candidate>, r: RunId)
    requires RunInv(s, read)
    ensures FailedSilently(Reap(s), r) <==> FailedSilently(s, r) || RunIsReaped(s, Reaping, r)
    ensures FailedLoudly(Reap(s), r) <==> FailedLoudly(s, r)
  {
    if RunIsReaped(s, Reaping, r) {
      var t :| t in s.tasks && Holds(s, t, ExpiredLeases(s)) && s.tasks[t].runId == r;
      LiveTaskOfRun(s, read, t);
    }
  }

  /** One step fails a run silently only by reaping it, and with its event only through its worker. */
  lemma StepFails(s: State, step: Step, read: set<Candidate>, r: RunId)
    requires RunInv(s, read) && EngineStep(step, read)
    ensures FailedSilently(Apply(s, step), r) <==> FailedSilently(s, r) || RunIsReaped(s, step, r)
    ensures FailedLoudly(Apply(s, step), r) <==> FailedLoudly(s, r) || WorkerFails(s, step, r)
  {
    match step
    case Reaping => ReapFails(s, read, r);
    case Claiming(c, at, worker, ttl) => ClaimFails(s, c, at, worker, ttl, read, r);
    case Finishing(t, token, outcome) => FinishFails(s, t, token, outcome, read, r);
    case FailingClaim(t, token) => FailClaimFails(s, t, token, read, r);
    case Announcing(t) => if t in s.tasks { LogSaysMore(s, s.tasks[t].runId, RunStarted(t), r); }
    case _ =>
  }

  lemma {:induction false} RunFailsFrom(s: State, read: set<Candidate>, steps: seq<Step>, r: RunId)
    requires RunInv(s, read) && EngineRun(s, read, steps)
    ensures FailedSilently(Exec(s, steps), r) <==> FailedSilently(s, r) || ReapedIn(s, steps, r)
    ensures FailedLoudly(Exec(s, steps), r) <==> FailedLoudly(s, r) || WorkerFailedIn(s, steps, r)
    decreases |steps|
  {
    if steps != [] {
      var seen := read + PendingRows(s);
      ReadingKeepsRuns(s, read);
      StepFails(s, steps[0], seen, r);
      StepKeepsRuns(s, steps[0], seen);
      RunFailsFrom(Apply(s, steps[0]), seen, steps[1..], r);
    }
  }

  /** Over any interleaving a run is failed exactly when it was reaped or its worker failed it: without a
      terminal event in the first case, with exactly its run.failed in the second, and never both. */
  lemma FailedSilentlyIffReaped(now: int, steps: seq<Step>, r: RunId)
    requires EngineRun(Init(now), {}, steps)
    ensures var s := Exec(Init(now), steps);
      && (FailedSilently(s, r) <==> ReapedIn(Init(now), steps, r))
      && (FailedLoudly(s, r) <==> WorkerFailedIn(Init(now), steps, r))
      && (r in s.runs && s.runs[r] == Failed <==> FailedSilently(s, r) || FailedLoudly(s, r))
  {
    RunFailsFrom(Init(now), {}, steps, r);
    EveryRunStaysSafe(Init(now), {}, steps);
    var s := Exec(Init(now), steps);
    if r in s.runs { assert RunSafe(s, r); }
  }

  /** A run whose worker goes silent: started, claimed for ten milliseconds, and reaped after twenty. */
  function AbandonedRun(): seq<Step> {
    [Starting("r", RunPrompt("p")), Claiming(Candidate(0, "r", 0, 0, 1), 0, "w", 10), Advance(20), Reaping]
  }

  lemma AbandonedRunFailsSilently()
    ensures EngineRun(Init(0), {}, AbandonedRun())
    ensures ReapedIn(Init(0), AbandonedRun(), "r") && FailedSilently(Exec(Init(0), AbandonedRun()), "r")
  {
    var (s0, steps) := (Init(0), AbandonedRun());
    var s1 := Apply(s0, steps[0]);
    assert s1.tasks[0] == NewTask("r", RunPrompt("p"), 0, 1, DEFAULT_RETRY_DELAY_MS);
    assert Snapshot(s1, 0) in PendingRows(s1);
    var s2 := Apply(s1, steps[1]);
    assert s2.leases[1].expiresAt == 10 && s2.tasks[0].status == Leased;
    var s3 := Apply(s2, steps[2]);
    assert Holds(s3, 0, ExpiredLeases(s3));
    assert RunIsReaped(s3, steps[3], "r");
    assert steps[1..][0] == steps[1] && steps[1..][1..] == steps[2..] && steps[2..][1..] == steps[3..];
    FailedSilentlyIffReaped(0, steps, "r");
  }
}
