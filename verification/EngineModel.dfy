/**
 The durable task engine as values: the run, task, lease and event tables, and what each
 store method does to them. Every function here is one atomic step over the tables; the class in
 EngineStore.dfy carries the same steps out in place and is proved against these functions.

 Clocks are integers. Lease ids, lease tokens and task ids come from one counter (`nextId`), which
 stands for the random-bytes source: a value it hands out was never handed out before. The token
 hash is collision free.
 */
module EngineModel {
  import opened Options

  type RunId = string
  type Id = nat

  datatype RunStatus = Queued | Running | Waiting | Completed | Failed
  datatype TaskStatus = Pending | Leased | Done | Errored | Dead

  /** What the payload of a task asks the runtime to do. */
  datatype TaskKind =
    | RunPrompt(prompt: string)
    | ContinueApproval(approvalId: string)
    | ResumeCheckpoint(checkpointId: string)
    | Unsupported(name: string)

  datatype Task = Task(
    runId: RunId,
    kind: TaskKind,
    status: TaskStatus,
    dueAt: int,
    attempt: nat,
    maxAttempts: int,
    retryDelayMs: int,
    leaseId: Option<Id>,
    workerId: Option<string>,
    leasedUntil: Option<int>)

  /** A collision-free hash: equal hashes come from equal texts. */
  datatype Hash = Hash(preimage: Id)

  function HashText(token: Id): Hash { Hash(token) }

  datatype Lease = Lease(
    taskId: Id,
    workerId: string,
    tokenHash: Hash,
    expiresAt: int,
    lastHeartbeatAt: int)

  datatype Event =
    | RunStarted(taskId: Id)
    | RunYielded(taskId: Id, checkpointId: string)
    | RunWaiting(taskId: Id)
    | RunCompleted(taskId: Id)
    | RunFailed(taskId: Id)
    | TaskFailed(taskId: Id)

  datatype LoggedEvent = LoggedEvent(runId: RunId, event: Event)

  datatype State = State(
    now: int,
    nextId: Id,
    runs: map<RunId, RunStatus>,
    tasks: map<Id, Task>,
    leases: map<Id, Lease>,
    events: seq<LoggedEvent>)

  const DEFAULT_RETRY_DELAY_MS := 1000
  const DEFAULT_CLAIM_LIMIT := 10

  function Init(now: int): State { State(now, 0, map[], map[], map[], []) }

  // ── Rows ──────────────────────────────────────────────────────────────────────────────────

  /** `updateRun`: changes nothing when the row is missing. */
  function SetRun(s: State, r: RunId, status: RunStatus): State {
    if r in s.runs then s.(runs := s.runs[r := status]) else s
  }

  function Log(s: State, r: RunId, e: Event): State {
    s.(events := s.events + [LoggedEvent(r, e)])
  }

  function NewTask(r: RunId, kind: TaskKind, dueAt: int, maxAttempts: int, retryDelayMs: int): Task {
    Task(r, kind, Pending, dueAt, 0, maxAttempts, retryDelayMs, None, None, None)
  }

  function Enqueue(s: State, r: RunId, kind: TaskKind, dueAt: int, maxAttempts: int, retryDelayMs: int): State {
    s.(nextId := s.nextId + 1,
       tasks := s.tasks[s.nextId := NewTask(r, kind, dueAt, maxAttempts, retryDelayMs)])
  }

  // ── reapExpiredLeases ─────────────────────────────────────────────────────────────────────

  /** A task whose attempts are used up dies; otherwise it is due again after its retry delay. */
  function AfterLoss(t: Task, now: int): Task {
    var dead := t.attempt >= t.maxAttempts;
    t.(status := if dead then Dead else Pending,
       dueAt := if dead then t.dueAt else now + t.retryDelayMs,
       leaseId := None, workerId := None, leasedUntil := None)
  }

  function ExpiredLeases(s: State): set<Id> {
    set l | l in s.leases && s.leases[l].expiresAt <= s.now
  }

  /** The task holds one of the leases in `taken`, and that lease is for this task. */
  predicate Holds(s: State, t: Id, taken: set<Id>)
    requires t in s.tasks
  {
    var task := s.tasks[t];
    && task.status == Leased
    && task.leaseId.Some?
    && task.leaseId.value in taken
    && task.leaseId.value in s.leases
    && s.leases[task.leaseId.value].taskId == t
  }

  predicate RunLosesTask(s: State, r: RunId, taken: set<Id>) {
    exists t | t in s.tasks ::
      Holds(s, t, taken) && s.tasks[t].runId == r && AfterLoss(s.tasks[t], s.now).status == Dead
  }

  /** Taking away the leases in `taken`: each is deleted, the task holding it goes back to pending
      or dies, and a death fails the run. */
  function TakeLeases(s: State, taken: set<Id>): State {
    s.(leases := s.leases - taken,
       tasks := map t | t in s.tasks ::
         if Holds(s, t, taken) then AfterLoss(s.tasks[t], s.now) else s.tasks[t],
       runs := map r | r in s.runs ::
         if RunLosesTask(s, r, taken) then Failed else s.runs[r])
  }

  function Reap(s: State): State { TakeLeases(s, ExpiredLeases(s)) }

  // ── claimDueTask ──────────────────────────────────────────────────────────────────────────

  /** The columns of a candidate row that the claim loop uses, as they were when it was read. */
  datatype Candidate = Candidate(id: Id, runId: RunId, dueAt: int, attempt: nat, maxAttempts: int)

  function Snapshot(s: State, t: Id): Candidate
    requires t in s.tasks
  {
    Candidate(t, s.tasks[t].runId, s.tasks[t].dueAt, s.tasks[t].attempt, s.tasks[t].maxAttempts)
  }

  predicate IsDue(s: State, t: Id) {
    t in s.tasks && s.tasks[t].status == Pending && s.tasks[t].dueAt <= s.now
  }

  predicate SortedByDue(cs: seq<Candidate>) {
    forall i, j | 0 <= i < j < |cs| :: cs[i].dueAt <= cs[j].dueAt
  }

  predicate DistinctIds(cs: seq<Candidate>) {
    forall i, j | 0 <= i < j < |cs| :: cs[i].id != cs[j].id
  }

  /** An answer to the candidate query: pending due rows, earliest first, at most `limit` of them,
      and no earlier due row left out. The order of ties is the database's. */
  predicate IsDueList(s: State, limit: nat, cs: seq<Candidate>) {
    && |cs| <= limit
    && (forall c | c in cs :: IsDue(s, c.id) && c == Snapshot(s, c.id))
    && SortedByDue(cs)
    && DistinctIds(cs)
    && (forall t | t in s.tasks && IsDue(s, t) && Snapshot(s, t) !in cs ::
          |cs| == limit && forall c | c in cs :: c.dueAt <= s.tasks[t].dueAt)
  }

  datatype Claim = Claim(taskId: Id, leaseId: Id, token: Id, expiresAt: int)

  /** The candidate can be taken: its row is still pending at the compare-and-set. */
  predicate StillPending(s: State, t: Id) { t in s.tasks && s.tasks[t].status == Pending }

  function KillExhausted(s: State, c: Candidate): State {
    SetRun(if StillPending(s, c.id) then s.(tasks := s.tasks[c.id := s.tasks[c.id].(status := Dead)]) else s,
           c.runId, Failed)
  }

  function LeaseOut(s: State, c: Candidate, at: int, worker: string, ttl: int): State
    requires c.id in s.tasks
  {
    var expiresAt := at + ttl;
    var claimed := s.tasks[c.id].(status := Leased, leaseId := Some(s.nextId), workerId := Some(worker),
                                  leasedUntil := Some(expiresAt), attempt := c.attempt + 1);
    SetRun(s.(nextId := s.nextId + 2,
              tasks := s.tasks[c.id := claimed],
              leases := s.leases[s.nextId := Lease(c.id, worker, HashText(s.nextId + 1), expiresAt, at)]),
           claimed.runId, Running)
  }

  /** One turn of the claim loop on a candidate read at time `at`, possibly long before. When the row
      has moved on, the lease just created is deleted again. */
  function TryClaim(s: State, c: Candidate, at: int, worker: string, ttl: int): (State, Option<Claim>) {
    if c.attempt >= c.maxAttempts then (KillExhausted(s, c), None)
    else if !StillPending(s, c.id) then (s.(nextId := s.nextId + 2, leases := s.leases - {s.nextId}), None)
    else (LeaseOut(s, c, at, worker, ttl), Some(Claim(c.id, s.nextId, s.nextId + 1, at + ttl)))
  }

  /** The claim loop: candidates in order until one is taken. */
  function ClaimLoop(s: State, cs: seq<Candidate>, at: int, worker: string, ttl: int): (State, Option<Claim>)
    decreases |cs|
  {
    if cs == [] then (s, None)
    else
      var (s', claim) := TryClaim(s, cs[0], at, worker, ttl);
      if claim.Some? then (s', claim) else ClaimLoop(s', cs[1..], at, worker, ttl)
  }

  // ── heartbeatLease, completeTask, failTask ────────────────────────────────────────────────

  /** The lease is live and the token opens it. */
  predicate LeaseOpens(s: State, l: Id, token: Id) {
    l in s.leases && s.leases[l].expiresAt > s.now && s.leases[l].tokenHash == HashText(token)
  }

  predicate HeldByLease(s: State, t: Id, l: Id) {
    t in s.tasks && s.tasks[t].status == Leased && s.tasks[t].leaseId == Some(l)
  }

  function Heartbeat(s: State, l: Id, token: Id, ttl: int): State {
    if !LeaseOpens(s, l, token) then s
    else
      var lease := s.leases[l].(expiresAt := s.now + ttl, lastHeartbeatAt := s.now);
      var s' := s.(leases := s.leases[l := lease]);
      if HeldByLease(s, lease.taskId, l) && s.tasks[lease.taskId].workerId == Some(lease.workerId)
      then s'.(tasks := s.tasks[lease.taskId := s.tasks[lease.taskId].(leasedUntil := Some(s.now + ttl))])
      else s'
  }

  /** `validateLease`: the lease named by the task row, if it is for this task, live, and opened by the token. */
  predicate ValidLease(s: State, t: Id, token: Id) {
    && t in s.tasks
    && s.tasks[t].leaseId.Some?
    && LeaseOpens(s, s.tasks[t].leaseId.value, token)
    && s.leases[s.tasks[t].leaseId.value].taskId == t
  }

  predicate CompleteSucceeds(s: State, t: Id, token: Id) {
    ValidLease(s, t, token) && s.tasks[t].status == Leased
  }

  function CompleteTask(s: State, t: Id, token: Id): State {
    if !CompleteSucceeds(s, t, token) then s
    else s.(tasks := s.tasks[t := s.tasks[t].(status := Done)],
            leases := s.leases - {s.tasks[t].leaseId.value})
  }

  function FailTask(s: State, t: Id, token: Id): State {
    if !ValidLease(s, t, token) then s
    else
      var s' := s.(leases := s.leases - {s.tasks[t].leaseId.value});
      if s.tasks[t].status == Leased then s'.(tasks := s.tasks[t := AfterLoss(s.tasks[t], s.now)]) else s'
  }

  // ── The worker's terminal transactions, and the engine's run starts ──────────────────────

  datatype Outcome = Yields(checkpointId: string) | Waits | Finishes

  /** The transaction that ends a slice: complete the task, then record what became of the run. A
      yield also enqueues the one task that resumes it. */
  function Finish(s: State, t: Id, token: Id, outcome: Outcome): State {
    if !CompleteSucceeds(s, t, token) then s
    else
      var r := s.tasks[t].runId;
      var s1 := CompleteTask(s, t, token);
      match outcome
      case Yields(cp) =>
        Enqueue(Log(SetRun(s1, r, Queued), r, RunYielded(t, cp)),
                r, ResumeCheckpoint(cp), s.now, 1, DEFAULT_RETRY_DELAY_MS)
      case Waits => Log(SetRun(s1, r, Waiting), r, RunWaiting(t))
      case Finishes => Log(SetRun(s1, r, Completed), r, RunCompleted(t))
  }

  predicate FailSucceeds(s: State, t: Id, token: Id) {
    ValidLease(s, t, token) && s.tasks[t].status == Leased
  }

  function FailClaim(s: State, t: Id, token: Id): State {
    var s1 := FailTask(s, t, token);
    if !FailSucceeds(s, t, token) then s1
    else
      var r := s.tasks[t].runId;
      var s2 := Log(s1, r, TaskFailed(t));
      if s1.tasks[t].status == Dead then Log(SetRun(s2, r, Failed), r, RunFailed(t)) else s2
  }

  /** `startRun` and `continueRun`: a run and its first task in one transaction, refused as a whole
      when the run id is taken. */
  function StartRun(s: State, r: RunId, kind: TaskKind): State {
    if r in s.runs then s
    else Enqueue(s.(runs := s.runs[r := Queued]), r, kind, s.now, 1, DEFAULT_RETRY_DELAY_MS)
  }

  // ── Steps ─────────────────────────────────────────────────────────────────────────────────

  /** One atomic step by anyone: the clock, an engine caller, or a worker at any point of its tick.
      `Claiming` is one turn of a claim loop over a candidate read earlier. */
  datatype Step =
    | Advance(ms: nat)
    | Starting(runId: RunId, kind: TaskKind)
    | Enqueueing(runId: RunId, kind: TaskKind, dueAt: int, maxAttempts: int, retryDelayMs: int)
    | Reaping
    | Claiming(candidate: Candidate, at: int, worker: string, ttl: int)
    | Beating(leaseId: Id, token: Id, ttl: int)
    | Announcing(taskId: Id)
    | CompletingTask(taskId: Id, token: Id)
    | FailingTask(taskId: Id, token: Id)
    | Finishing(taskId: Id, token: Id, outcome: Outcome)
    | FailingClaim(taskId: Id, token: Id)

  function Apply(s: State, step: Step): State {
    match step
    case Advance(ms) => s.(now := s.now + ms)
    case Starting(r, kind) => StartRun(s, r, kind)
    case Enqueueing(r, kind, dueAt, max, delay) => Enqueue(s, r, kind, dueAt, max, delay)
    case Reaping => Reap(s)
    case Claiming(c, at, worker, ttl) => TryClaim(s, c, at, worker, ttl).0
    case Beating(l, token, ttl) => Heartbeat(s, l, token, ttl)
    case Announcing(t) => if t in s.tasks then Log(s, s.tasks[t].runId, RunStarted(t)) else s
    case CompletingTask(t, token) => CompleteTask(s, t, token)
    case FailingTask(t, token) => FailTask(s, t, token)
    case Finishing(t, token, outcome) => Finish(s, t, token, outcome)
    case FailingClaim(t, token) => FailClaim(s, t, token)
  }

  function Exec(s: State, steps: seq<Step>): State
    decreases |steps|
  {
    if steps == [] then s else Exec(Apply(s, steps[0]), steps[1..])
  }

  /** A claim call as its steps: the reap, then one turn per candidate. */
  function ClaimSteps(cs: seq<Candidate>, at: int, worker: string, ttl: int): seq<Step>
    decreases |cs|
  {
    if cs == [] then [] else [Claiming(cs[0], at, worker, ttl)] + ClaimSteps(cs[1..], at, worker, ttl)
  }
}
