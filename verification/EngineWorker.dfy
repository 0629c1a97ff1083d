/**
 The worker's tick, cut where other workers may run in between: claiming, the heartbeats while the
 runtime executes, and the terminal transaction. Each piece is proved to be steps of EngineModel.dfy.
 */
module EngineWorker {
  import opened Options
  import opened EngineModel
  import opened EngineStore

  /** How the runtime's execution of the task ended. */
  datatype Execution = Returned(outcome: Outcome) | Threw(reason: string)

  datatype TickStart = Idle | PastDeadline | Refused | Started(claim: Claim)

  datatype TickEnd = Ended(outcome: Outcome) | TaskFailure | LeaseLost

  lemma {:induction false} ClaimedTaskExists(s: State, cs: seq<Candidate>, at: int, worker: string, ttl: int)
    ensures var (s', claim) := ClaimLoop(s, cs, at, worker, ttl);
      claim.Some? ==> claim.value.taskId in s'.tasks && s'.tasks[claim.value.taskId].status == Leased
    decreases |cs|
  {
    if cs != [] && TryClaim(s, cs[0], at, worker, ttl).1.None? {
      ClaimedTaskExists(TryClaim(s, cs[0], at, worker, ttl).0, cs[1..], at, worker, ttl);
    }
  }

  class SqlEngineWorker {
    const store: SqlEngineStore
    const workerId: string
    const leaseTtlMs: int
    var claim: Option<Claim>
    var lost: bool
    var stopped: bool

    constructor (store: SqlEngineStore, workerId: string, leaseTtlMs: int)
      ensures this.store == store && this.workerId == workerId && this.leaseTtlMs == leaseTtlMs
      ensures claim == None
    {
      this.store, this.workerId, this.leaseTtlMs := store, workerId, leaseTtlMs;
      claim, lost, stopped := None, false, true;
    }

    /** A tick up to the call of the runtime. Past its deadline it touches nothing; a task of an
        unknown kind is failed at once. */
    method Begin(deadlineAt: Option<int>) returns (start: TickStart, ghost cs: seq<Candidate>)
      modifies this, store
      ensures start.PastDeadline? <==> deadlineAt.Some? && old(store.clock) >= deadlineAt.value
      ensures start.PastDeadline? ==> store.Tables() == old(store.Tables())
      ensures !start.PastDeadline? ==>
        var s0 := old(store.Tables());
        && IsDueList(Reap(s0), DEFAULT_CLAIM_LIMIT, cs)
        && var (s1, taken) := ClaimLoop(Reap(s0), cs, s0.now, workerId, leaseTtlMs);
        match taken
        case None => start == Idle && store.Tables() == s1
        case Some(c) =>
          && c.taskId in s1.tasks
          && if s1.tasks[c.taskId].kind.Unsupported?
             then start == Refused && store.Tables() == EngineModel.FailClaim(s1, c.taskId, c.token)
             else start == Started(c) && claim == Some(c) && !lost && !stopped
                  && store.Tables() == Apply(s1, Announcing(c.taskId))
    {
      cs := [];
      if deadlineAt.Some? && store.clock >= deadlineAt.value { return PastDeadline, []; }
      var taken;
      ghost var s := Reap(store.Tables());
      taken, cs := store.ClaimDueTask(workerId, leaseTtlMs, DEFAULT_CLAIM_LIMIT);
      ClaimedTaskExists(s, cs, s.now, workerId, leaseTtlMs);
      if taken.None? { return Idle, cs; }
      var c := taken.value;
      claim, lost, stopped := taken, false, false;
      var task := store.tasks[c.taskId];
      if task.kind.Unsupported? {
        stopped := true;
        var _ := FailClaim(c);
        return Refused, cs;
      }
      store.AppendEvent(task.runId, RunStarted(c.taskId));
      return Started(c), cs;
    }

    /** The heartbeat timer: the first failure marks the lease lost, and a stopped timer does nothing. */
    method Beat()
      requires claim.Some?
      modifies this`lost, store
      ensures if old(stopped) then store.Tables() == old(store.Tables()) && lost == old(lost)
              else && store.Tables() ==
                      Heartbeat(old(store.Tables()), claim.value.leaseId, claim.value.token, leaseTtlMs)
                   && lost == (old(lost) || !LeaseOpens(old(store.Tables()), claim.value.leaseId, claim.value.token))
    {
      if !stopped {
        var ok := store.HeartbeatLease(claim.value.leaseId, claim.value.token, leaseTtlMs);
        if !ok { lost := true; }
      }
    }

    method FailClaim(c: Claim) returns (failed: bool)
      modifies store
      ensures failed <==> FailSucceeds(old(store.Tables()), c.taskId, c.token)
      ensures store.Tables() == EngineModel.FailClaim(old(store.Tables()), c.taskId, c.token)
    {
      failed := store.FailTask(c.taskId, c.token);
      if failed {
        var task := store.tasks[c.taskId];
        store.AppendEvent(task.runId, EngineModel.TaskFailed(c.taskId));
        if task.status == Dead {
          store.UpdateRun(task.runId, Failed);
          store.AppendEvent(task.runId, RunFailed(c.taskId));
        }
      }
    }

    /** The terminal transaction of a tick. A worker whose heartbeat was lost writes nothing; one whose
        lease was taken away meanwhile changes nothing either. */
    method End(execution: Execution) returns (end: TickEnd)
      requires claim.Some?
      modifies this, store
      ensures stopped && claim == old(claim)
      ensures old(lost) ==> end == LeaseLost && store.Tables() == old(store.Tables())
      ensures !old(lost) && execution.Threw? ==>
        end == TaskFailure &&
        store.Tables() == EngineModel.FailClaim(old(store.Tables()), claim.value.taskId, claim.value.token)
      ensures !old(lost) && execution.Returned? ==>
        && store.Tables() == Finish(old(store.Tables()), claim.value.taskId, claim.value.token, execution.outcome)
        && end == (if CompleteSucceeds(old(store.Tables()), claim.value.taskId, claim.value.token)
                   then Ended(execution.outcome) else LeaseLost)
    {
      stopped := true;
      if lost { return LeaseLost; }
      if execution.Threw? {
        var _ := FailClaim(claim.value);
        return TaskFailure;
      }
      var t := claim.value.taskId;
      var done := store.CompleteTask(t, claim.value.token);
      if !done { return LeaseLost; }
      var r := store.tasks[t].runId;
      match execution.outcome {
        case Yields(checkpointId) =>
          store.UpdateRun(r, Queued);
          store.AppendEvent(r, RunYielded(t, checkpointId));
          var _ := store.EnqueueTask(r, ResumeCheckpoint(checkpointId), store.clock, 1, DEFAULT_RETRY_DELAY_MS);
        case Waits =>
          store.UpdateRun(r, Waiting);
          store.AppendEvent(r, RunWaiting(t));
        case Finishes =>
          store.UpdateRun(r, Completed);
          store.AppendEvent(r, RunCompleted(t));
      }
      return Ended(execution.outcome);
    }
  }
}
