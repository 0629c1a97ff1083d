/**
 Leases over every run of the engine: leased tasks and lease rows stay in bijection, a token that
 has stopped opening its lease never opens anything again, and how far `attempt` counts claims.
 */
module EngineLeases {
  import opened Options
  import opened EngineModel

  // ── The bijection between leased tasks and lease rows ─────────────────────────────────────

  /** The row of lease `l` and the row of its task agree on everything they both record. */
  predicate LeaseMatchesTask(s: State, l: Id)
    requires l in s.leases
  {
    var lease := s.leases[l];
    && l + 1 < s.nextId
    && lease.tokenHash == HashText(l + 1)
    && lease.taskId in s.tasks
    && var task := s.tasks[lease.taskId];
    && task.status == Leased
    && task.leaseId == Some(l)
    && task.workerId == Some(lease.workerId)
    && task.leasedUntil == Some(lease.expiresAt)
  }

  predicate TaskHasLease(s: State, t: Id)
    requires t in s.tasks
  {
    s.tasks[t].status == Leased ==>
      && s.tasks[t].leaseId.Some?
      && s.tasks[t].leaseId.value in s.leases
      && s.leases[s.tasks[t].leaseId.value].taskId == t
  }

  /** `taskId` and `leaseId` are inverse to each other between lease rows and leased tasks, and the
      two rows record the same worker and expiry. */
  predicate LeaseInv(s: State) {
    && (forall l | l in s.leases :: LeaseMatchesTask(s, l))
    && (forall t | t in s.tasks :: TaskHasLease(s, t))
    && (forall t | t in s.tasks :: t < s.nextId)
  }

  lemma InitLeaseInv(now: int)
    ensures LeaseInv(Init(now))
  {}

  lemma TakeLeasesKeepsInv(s: State, taken: set<Id>)
    requires LeaseInv(s)
    ensures LeaseInv(TakeLeases(s, taken))
  {}

  lemma SetRunKeepsInv(s: State, r: RunId, status: RunStatus)
    requires LeaseInv(s)
    ensures LeaseInv(SetRun(s, r, status))
  {}

  lemma LogKeepsInv(s: State, r: RunId, e: Event)
    requires LeaseInv(s)
    ensures LeaseInv(Log(s, r, e))
  {}

  lemma EnqueueKeepsInv(s: State, r: RunId, kind: TaskKind, dueAt: int, max: int, delay: int)
    requires LeaseInv(s)
    ensures LeaseInv(Enqueue(s, r, kind, dueAt, max, delay))
  {}

  lemma LeaseOutKeepsInv(s: State, c: Candidate, at: int, worker: string, ttl: int)
    requires LeaseInv(s) && StillPending(s, c.id)
    ensures LeaseInv(LeaseOut(s, c, at, worker, ttl))
  {
    var s' := LeaseOut(s, c, at, worker, ttl);
    forall l | l in s'.leases ensures LeaseMatchesTask(s', l) {
      if l in s.leases { assert LeaseMatchesTask(s, l); }
    }
    forall t | t in s'.tasks ensures TaskHasLease(s', t) {
      assert TaskHasLease(s, t);
      if t != c.id && s.tasks[t].status == Leased { assert LeaseMatchesTask(s, s.tasks[t].leaseId.value); }
    }
  }

  lemma TryClaimKeepsInv(s: State, c: Candidate, at: int, worker: string, ttl: int)
    requires LeaseInv(s)
    ensures LeaseInv(TryClaim(s, c, at, worker, ttl).0)
  {
    if c.attempt >= c.maxAttempts {
      var s1 := if StillPending(s, c.id) then s.(tasks := s.tasks[c.id := s.tasks[c.id].(status := Dead)]) else s;
      forall l | l in s1.leases ensures LeaseMatchesTask(s1, l) { assert LeaseMatchesTask(s, l); }
      forall t | t in s1.tasks ensures TaskHasLease(s1, t) { assert TaskHasLease(s, t); }
      SetRunKeepsInv(s1, c.runId, Failed);
    } else if StillPending(s, c.id) {
      LeaseOutKeepsInv(s, c, at, worker, ttl);
    } else {
      var s' := TryClaim(s, c, at, worker, ttl).0;
      forall l | l in s'.leases ensures LeaseMatchesTask(s', l) { assert LeaseMatchesTask(s, l); }
      forall t | t in s'.tasks ensures TaskHasLease(s', t) { assert TaskHasLease(s, t); }
    }
  }

  lemma HeartbeatKeepsInv(s: State, l: Id, token: Id, ttl: int)
    requires LeaseInv(s)
    ensures LeaseInv(Heartbeat(s, l, token, ttl))
  {
    var s' := Heartbeat(s, l, token, ttl);
    forall k | k in s'.leases ensures LeaseMatchesTask(s', k) { assert LeaseMatchesTask(s, k); }
    forall t | t in s'.tasks ensures TaskHasLease(s', t) { assert TaskHasLease(s, t); }
  }

  lemma CompleteKeepsInv(s: State, t: Id, token: Id)
    requires LeaseInv(s)
    ensures LeaseInv(CompleteTask(s, t, token))
  {
    var s' := CompleteTask(s, t, token);
    forall k | k in s'.leases ensures LeaseMatchesTask(s', k) { assert LeaseMatchesTask(s, k); }
    forall u | u in s'.tasks ensures TaskHasLease(s', u) { assert TaskHasLease(s, u); }
  }

  lemma FailTaskKeepsInv(s: State, t: Id, token: Id)
    requires LeaseInv(s)
    ensures LeaseInv(FailTask(s, t, token))
  {}

  lemma FinishKeepsInv(s: State, t: Id, token: Id, outcome: Outcome)
    requires LeaseInv(s)
    ensures LeaseInv(Finish(s, t, token, outcome))
  {
    if CompleteSucceeds(s, t, token) {
      var r := s.tasks[t].runId;
      var s1 := CompleteTask(s, t, token);
      CompleteKeepsInv(s, t, token);
      match outcome
      case Yields(cp) =>
        SetRunKeepsInv(s1, r, Queued);
        LogKeepsInv(SetRun(s1, r, Queued), r, RunYielded(t, cp));
        EnqueueKeepsInv(Log(SetRun(s1, r, Queued), r, RunYielded(t, cp)), r, ResumeCheckpoint(cp), s.now, 1,
                        DEFAULT_RETRY_DELAY_MS);
      case Waits =>
        SetRunKeepsInv(s1, r, Waiting);
        LogKeepsInv(SetRun(s1, r, Waiting), r, RunWaiting(t));
      case Finishes =>
        SetRunKeepsInv(s1, r, Completed);
        LogKeepsInv(SetRun(s1, r, Completed), r, RunCompleted(t));
    }
  }

  lemma FailClaimKeepsInv(s: State, t: Id, token: Id)
    requires LeaseInv(s)
    ensures LeaseInv(FailClaim(s, t, token))
  {
    FailTaskKeepsInv(s, t, token);
    if FailSucceeds(s, t, token) {
      var r := s.tasks[t].runId;
      var s2 := Log(FailTask(s, t, token), r, TaskFailed(t));
      LogKeepsInv(FailTask(s, t, token), r, TaskFailed(t));
      SetRunKeepsInv(s2, r, Failed);
      LogKeepsInv(SetRun(s2, r, Failed), r, RunFailed(t));
    }
  }

  lemma ApplyKeepsLeaseInv(s: State, step: Step)
    requires LeaseInv(s)
    ensures LeaseInv(Apply(s, step))
  {
    match step
    case Advance(ms) =>
      var s' := Apply(s, step);
      forall l | l in s'.leases ensures LeaseMatchesTask(s', l) { assert LeaseMatchesTask(s, l); }
      forall t | t in s'.tasks ensures TaskHasLease(s', t) { assert TaskHasLease(s, t); }
    case Starting(r, kind) =>
      if r !in s.runs {
        var s1 := s.(runs := s.runs[r := Queued]);
        forall l | l in s1.leases ensures LeaseMatchesTask(s1, l) { assert LeaseMatchesTask(s, l); }
        forall t | t in s1.tasks ensures TaskHasLease(s1, t) { assert TaskHasLease(s, t); }
        EnqueueKeepsInv(s1, r, kind, s.now, 1, DEFAULT_RETRY_DELAY_MS);
      }
    case Enqueueing(r, kind, dueAt, max, delay) => EnqueueKeepsInv(s, r, kind, dueAt, max, delay);
    case Reaping => TakeLeasesKeepsInv(s, ExpiredLeases(s));
    case Claiming(c, at, worker, ttl) => TryClaimKeepsInv(s, c, at, worker, ttl);
    case Beating(l, token, ttl) => HeartbeatKeepsInv(s, l, token, ttl);
    case Announcing(t) => if t in s.tasks { LogKeepsInv(s, s.tasks[t].runId, RunStarted(t)); }
    case CompletingTask(t, token) => CompleteKeepsInv(s, t, token);
    case FailingTask(t, token) => FailTaskKeepsInv(s, t, token);
    case Finishing(t, token, outcome) => FinishKeepsInv(s, t, token, outcome);
    case FailingClaim(t, token) => FailClaimKeepsInv(s, t, token);
  }

  /** Every reachable state, under any interleaving of any workers, has the bijection. */
  lemma {:induction false} ReachableLeaseInv(s: State, steps: seq<Step>)
    requires LeaseInv(s)
    ensures LeaseInv(Exec(s, steps))
    decreases |steps|
  {
    if steps != [] {
      ApplyKeepsLeaseInv(s, steps[0]);
      ReachableLeaseInv(Apply(s, steps[0]), steps[1..]);
    }
  }
}
