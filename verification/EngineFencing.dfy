/**
 Tokens and attempts over every run of the engine.

 A token that does not open a lease now, whether it was superseded, reaped, used up by a terminal
 transaction or simply let expire, never opens one again. A task's claims are counted by `attempt`
 exactly as long as the claim loop works on rows that are still what the query returned.
 */
module EngineFencing {
  import opened Options
  import opened EngineModel
  import opened EngineLeases

  // ── Fencing ───────────────────────────────────────────────────────────────────────────────

  /** The token opens some live lease. */
  predicate Usable(s: State, token: Id) {
    exists l | l in s.leases :: LeaseOpens(s, l, token)
  }

  /** What a step can do to a lease row: keep it, extend it by its own token while live, delete it,
      or add one under an id and a token never issued before. */
  predicate LeaseEvolves(s: State, s': State, l: Id)
    requires l in s'.leases
  {
    var lease := s'.leases[l];
    || (l in s.leases && s.leases[l].tokenHash == lease.tokenHash && s.leases[l].taskId == lease.taskId &&
        (s.leases[l].expiresAt == lease.expiresAt || LeaseOpens(s, l, lease.tokenHash.preimage)))
    || (l >= s.nextId && lease.tokenHash.preimage >= s.nextId)
  }

  lemma StepEvolvesLeases(s: State, step: Step)
    ensures s.now <= Apply(s, step).now && s.nextId <= Apply(s, step).nextId
    ensures forall l | l in Apply(s, step).leases :: LeaseEvolves(s, Apply(s, step), l)
  {
    match step
    case Claiming(c, at, worker, ttl) =>
    case Beating(l, token, ttl) =>
    case Finishing(t, token, outcome) =>
    case FailingClaim(t, token) =>
    case _ =>
  }

  lemma StepFences(s: State, step: Step, token: Id)
    requires token < s.nextId && !Usable(s, token)
    ensures token < Apply(s, step).nextId && !Usable(Apply(s, step), token)
  {
    StepEvolvesLeases(s, step);
    var s' := Apply(s, step);
    forall l | l in s'.leases ensures !LeaseOpens(s', l, token) {
      assert LeaseEvolves(s, s', l);
      assert !LeaseOpens(s, l, token);
    }
  }

  /** The token is refused by everything that asks for one. */
  ghost predicate Refused(s: State, token: Id) {
    && (forall l, ttl :: Heartbeat(s, l, token, ttl) == s)
    && (forall t :: CompleteTask(s, t, token) == s)
    && (forall t :: FailTask(s, t, token) == s)
    && (forall t, outcome :: Finish(s, t, token, outcome) == s)
    && (forall t :: FailClaim(s, t, token) == s)
  }

  lemma UnusableIsRefused(s: State, token: Id)
    requires !Usable(s, token)
    ensures Refused(s, token)
  {}

  /** A token that opens nothing is refused for good, whatever anyone does next. */
  lemma {:induction false} FencedForGood(s: State, token: Id, steps: seq<Step>)
    requires token < s.nextId && !Usable(s, token)
    ensures !Usable(Exec(s, steps), token)
    ensures Refused(Exec(s, steps), token)
    decreases |steps|
  {
    if steps == [] {
      UnusableIsRefused(s, token);
    } else {
      StepFences(s, steps[0], token);
      FencedForGood(Apply(s, steps[0]), token, steps[1..]);
    }
  }

  /** Ending its claim takes a token out of use. */
  lemma TerminalRetires(s: State, t: Id, token: Id, outcome: Outcome)
    requires LeaseInv(s) && CompleteSucceeds(s, t, token)
    ensures !Usable(Finish(s, t, token, outcome), token)
    ensures !Usable(FailClaim(s, t, token), token)
  {
    var l := s.tasks[t].leaseId.value;
    assert LeaseMatchesTask(s, l);
    forall k | k in s.leases - {l} ensures !LeaseOpens(s, k, token) {
      assert LeaseMatchesTask(s, k);
    }
    assert Finish(s, t, token, outcome).leases == s.leases - {l};
    assert FailClaim(s, t, token).leases == s.leases - {l};
    forall k | k in s.leases - {l}
      ensures !LeaseOpens(Finish(s, t, token, outcome), k, token) && !LeaseOpens(FailClaim(s, t, token), k, token)
    {
      assert !LeaseOpens(s, k, token);
    }
  }

  /** At any time at most one token can act for a task, and it is the one of the latest claim. */
  lemma OneTokenPerTask(s: State, l1: Id, l2: Id, token1: Id, token2: Id)
    requires LeaseInv(s)
    requires LeaseOpens(s, l1, token1) && LeaseOpens(s, l2, token2)
    requires s.leases[l1].taskId == s.leases[l2].taskId
    ensures l1 == l2 && token1 == token2
    ensures s.tasks[s.leases[l1].taskId].leaseId == Some(l1)
  {
    assert LeaseMatchesTask(s, l1) && LeaseMatchesTask(s, l2);
  }

  /** Lease `l`, as long as it is there, is for task `t`. */
  predicate LeaseOnlyFor(s: State, l: Id, t: Id) {
    l < s.nextId && (l in s.leases ==> s.leases[l].taskId == t)
  }

  lemma StepKeepsLeaseTask(s: State, step: Step, l: Id, t: Id)
    requires LeaseOnlyFor(s, l, t)
    ensures LeaseOnlyFor(Apply(s, step), l, t)
  {
    StepEvolvesLeases(s, step);
    if l in Apply(s, step).leases { assert LeaseEvolves(s, Apply(s, step), l); }
  }

  lemma {:induction false} RunKeepsLeaseTask(s: State, steps: seq<Step>, l: Id, t: Id)
    requires LeaseOnlyFor(s, l, t)
    ensures LeaseOnlyFor(Exec(s, steps), l, t)
    decreases |steps|
  {
    if steps != [] {
      StepKeepsLeaseTask(s, steps[0], l, t);
      RunKeepsLeaseTask(Apply(s, steps[0]), steps[1..], l, t);
    }
  }

  /** A task that can be claimed has no lease left, so no token of its earlier leases opens one. */
  lemma PendingTaskHasNoToken(s: State, l: Id, t: Id)
    requires LeaseInv(s) && LeaseOnlyFor(s, l, t) && StillPending(s, t)
    ensures !Usable(s, l + 1)
  {
    forall k | k in s.leases ensures !LeaseOpens(s, k, l + 1) {
      assert LeaseMatchesTask(s, k);
    }
  }

  /** Once a task is claimed again, the token of its earlier claim is refused for good, however many
      steps by anyone lie between the claims and whatever comes after. */
  lemma ReclaimFences(s: State, first: Step, between: seq<Step>, again: Step, after: seq<Step>, issued: Claim)
    requires LeaseInv(s) && first.Claiming? && again.Claiming? && first.candidate.id == again.candidate.id
    requires TryClaim(s, first.candidate, first.at, first.worker, first.ttl).1 == Some(issued)
    requires var s2 := Exec(Apply(s, first), between);
      TryClaim(s2, again.candidate, again.at, again.worker, again.ttl).1.Some?
    ensures var s2 := Exec(Apply(s, first), between);
      Refused(Exec(Apply(s2, again), after), issued.token)
  {
    var (s1, t) := (Apply(s, first), first.candidate.id);
    var s2 := Exec(s1, between);
    ApplyKeepsLeaseInv(s, first);
    ReachableLeaseInv(s1, between);
    RunKeepsLeaseTask(s1, between, issued.leaseId, t);
    PendingTaskHasNoToken(s2, issued.leaseId, t);
    RunIssuesMore(s1, between);
    FencedForGood(s2, issued.token, [again] + after);
    assert ([again] + after)[1..] == after;
  }

  lemma {:induction false} RunIssuesMore(s: State, steps: seq<Step>)
    ensures s.nextId <= Exec(s, steps).nextId
    decreases |steps|
  {
    if steps != [] {
      StepEvolvesLeases(s, steps[0]);
      RunIssuesMore(Apply(s, steps[0]), steps[1..]);
    }
  }

  // ── Attempts ──────────────────────────────────────────────────────────────────────────────

  /** The tables together with how often each task has been claimed so far. */
  datatype Counted = Counted(s: State, claims: map<Id, nat>)

  function ClaimsOf(w: Counted, t: Id): nat { if t in w.claims then w.claims[t] else 0 }

  function ApplyCounted(w: Counted, step: Step): Counted {
    var s' := Apply(w.s, step);
    match step
    case Claiming(c, at, worker, ttl) =>
      if TryClaim(w.s, c, at, worker, ttl).1.Some?
      then Counted(s', w.claims[c.id := ClaimsOf(w, c.id) + 1])
      else w.(s := s')
    case _ => w.(s := s')
  }

  function ExecCounted(w: Counted, steps: seq<Step>): Counted
    decreases |steps|
  {
    if steps == [] then w else ExecCounted(ApplyCounted(w, steps[0]), steps[1..])
  }

  /** Each task was claimed exactly `attempt` times, and no more often than it may be. */
  predicate AttemptsCount(w: Counted) {
    && (forall t | t in w.s.tasks :: AttemptIsClaims(w, t))
    && (forall t | t in w.claims :: t < w.s.nextId)
  }

  predicate AttemptIsClaims(w: Counted, t: Id)
    requires t in w.s.tasks
  {
    ClaimsOf(w, t) == w.s.tasks[t].attempt && w.s.tasks[t].attempt <= Allowed(w.s.tasks[t])
  }

  function Allowed(t: Task): nat { if t.maxAttempts > 0 then t.maxAttempts else 0 }

  /** The candidate still says what its row says about attempts. */
  predicate Current(s: State, c: Candidate) {
    c.id in s.tasks && c.attempt == s.tasks[c.id].attempt && c.maxAttempts == s.tasks[c.id].maxAttempts
  }

  /** A claim step works on a row that has not moved on, or takes nothing. */
  predicate StepCurrent(s: State, step: Step) {
    match step
    case Claiming(c, at, worker, ttl) => TryClaim(s, c, at, worker, ttl).1.Some? ==> Current(s, c)
    case _ => true
  }

  predicate RunCurrent(s: State, steps: seq<Step>)
    decreases |steps|
  {
    steps == [] || (StepCurrent(s, steps[0]) && RunCurrent(Apply(s, steps[0]), steps[1..]))
  }

  /** Task rows keep their budget and their attempts, and new rows start at attempt zero. */
  predicate AttemptsKept(s: State, s': State) {
    && (forall t | t in s.tasks ::
          t in s'.tasks && s'.tasks[t].attempt == s.tasks[t].attempt &&
          s'.tasks[t].maxAttempts == s.tasks[t].maxAttempts)
    && (forall t | t in s'.tasks && t !in s.tasks :: t >= s.nextId && s'.tasks[t].attempt == 0)
  }

  lemma FinishKeepsAttempts(s: State, t: Id, token: Id, outcome: Outcome)
    requires LeaseInv(s)
    ensures AttemptsKept(s, Finish(s, t, token, outcome))
  {
    if CompleteSucceeds(s, t, token) {
      var r := s.tasks[t].runId;
      var s1 := CompleteTask(s, t, token);
      assert AttemptsKept(s, s1);
      match outcome
      case Yields(cp) =>
        var s2 := Log(SetRun(s1, r, Queued), r, RunYielded(t, cp));
        assert s2.tasks == s1.tasks && s2.nextId == s1.nextId == s.nextId;
      case _ =>
    }
  }

  lemma ReapKeepsAttempts(s: State)
    ensures AttemptsKept(s, Reap(s))
  {}

  lemma HeartbeatKeepsAttempts(s: State, l: Id, token: Id, ttl: int)
    ensures AttemptsKept(s, Heartbeat(s, l, token, ttl))
  {}

  lemma FailKeepsAttempts(s: State, t: Id, token: Id)
    ensures AttemptsKept(s, FailTask(s, t, token))
    ensures AttemptsKept(s, FailClaim(s, t, token))
  {
    assert FailClaim(s, t, token).tasks == FailTask(s, t, token).tasks;
  }

  lemma StartKeepsAttempts(s: State, r: RunId, kind: TaskKind)
    requires LeaseInv(s)
    ensures AttemptsKept(s, StartRun(s, r, kind))
  {}

  /** Only a claim moves `attempt`. */
  lemma StepKeepsAttempts(s: State, step: Step)
    requires LeaseInv(s)
    requires !step.Claiming?
    ensures AttemptsKept(s, Apply(s, step))
  {
    match step
    case Finishing(t, token, outcome) => FinishKeepsAttempts(s, t, token, outcome);
    case Reaping => ReapKeepsAttempts(s);
    case Beating(l, token, ttl) => HeartbeatKeepsAttempts(s, l, token, ttl);
    case FailingTask(t, token) => FailKeepsAttempts(s, t, token);
    case FailingClaim(t, token) => FailKeepsAttempts(s, t, token);
    case Starting(r, kind) => StartKeepsAttempts(s, r, kind);
    case CompletingTask(t, token) =>
    case Enqueueing(r, kind, dueAt, max, delay) =>
    case Announcing(t) =>
    case Advance(ms) =>
  }

  /** A claim step keeps the count exactly when the row it takes is the row that was read. */
  lemma ClaimCountsIffCurrent(w: Counted, c: Candidate, at: int, worker: string, ttl: int)
    requires LeaseInv(w.s) && AttemptsCount(w)
    requires c.id in w.s.tasks ==> c.maxAttempts == w.s.tasks[c.id].maxAttempts
    ensures AttemptsCount(ApplyCounted(w, Claiming(c, at, worker, ttl)))
       <==> StepCurrent(w.s, Claiming(c, at, worker, ttl))
  {
    var w' := ApplyCounted(w, Claiming(c, at, worker, ttl));
    if TryClaim(w.s, c, at, worker, ttl).1.Some? {
      assert w'.s.tasks[c.id].attempt == c.attempt + 1;
      assert ClaimsOf(w', c.id) == w.s.tasks[c.id].attempt + 1;
      forall t | t in w'.s.tasks && t != c.id ensures AttemptIsClaims(w', t) {
        assert w'.s.tasks[t] == w.s.tasks[t];
      }
    } else {
      MissedClaimKeepsAttempts(w, c, at, worker, ttl);
    }
  }

  lemma MissedClaimKeepsAttempts(w: Counted, c: Candidate, at: int, worker: string, ttl: int)
    requires AttemptsCount(w) && TryClaim(w.s, c, at, worker, ttl).1.None?
    ensures AttemptsCount(ApplyCounted(w, Claiming(c, at, worker, ttl)))
  {
    var w' := ApplyCounted(w, Claiming(c, at, worker, ttl));
    forall t | t in w'.s.tasks ensures AttemptIsClaims(w', t) {
      assert w'.s.tasks[t].attempt == w.s.tasks[t].attempt;
    }
  }

  lemma StepCountsAttempts(w: Counted, step: Step)
    requires LeaseInv(w.s) && AttemptsCount(w) && StepCurrent(w.s, step)
    ensures AttemptsCount(ApplyCounted(w, step))
  {
    var w' := ApplyCounted(w, step);
    if step.Claiming? {
      var c := step.candidate;
      if c.attempt < c.maxAttempts && StillPending(w.s, c.id) {
        ClaimCountsIffCurrent(w, c, step.at, step.worker, step.ttl);
      } else {
        forall t | t in w'.s.tasks
          ensures AttemptIsClaims(w', t)
        {
          assert w'.s.tasks[t].attempt == w.s.tasks[t].attempt;
        }
      }
    } else {
      StepKeepsAttempts(w.s, step);
      StepEvolvesLeases(w.s, step);
      forall t | t in w'.s.tasks
        ensures AttemptIsClaims(w', t)
      {
        if t in w.s.tasks { assert w'.s.tasks[t].attempt == w.s.tasks[t].attempt; }
      }
    }
  }

  /** Over any run whose claims take rows as they were read, every task is claimed exactly
      `attempt` times and never beyond its budget. */
  lemma {:induction false} ClaimedExactlyAttemptTimes(w: Counted, steps: seq<Step>)
    requires LeaseInv(w.s) && AttemptsCount(w) && RunCurrent(w.s, steps)
    ensures AttemptsCount(ExecCounted(w, steps))
    ensures ExecCounted(w, steps).s == Exec(w.s, steps)
    decreases |steps|
  {
    if steps != [] {
      StepCountsAttempts(w, steps[0]);
      ApplyKeepsLeaseInv(w.s, steps[0]);
      ClaimedExactlyAttemptTimes(ApplyCounted(w, steps[0]), steps[1..]);
    }
  }

  // ── The budget ────────────────────────────────────────────────────────────────────────────

  /** What any worker may have read as a candidate: the pending rows of this state. */
  function PendingRows(s: State): set<Candidate> {
    set t | t in s.tasks && s.tasks[t].status == Pending :: Snapshot(s, t)
  }

  /** Every claim works on a row that was read as pending, now or at any earlier point. */
  predicate ClaimsWhatWasRead(s: State, read: set<Candidate>, steps: seq<Step>)
    decreases |steps|
  {
    steps == [] ||
    var seen := read + PendingRows(s);
    && (steps[0].Claiming? ==> steps[0].candidate in seen)
    && ClaimsWhatWasRead(Apply(s, steps[0]), seen, steps[1..])
  }

  /** No task has more attempts than its budget, and what was read says the budget of its task. */
  predicate WithinBudget(s: State, read: set<Candidate>) {
    && (forall t | t in s.tasks :: s.tasks[t].attempt <= Allowed(s.tasks[t]))
    && (forall c | c in read :: c.id in s.tasks && c.maxAttempts == s.tasks[c.id].maxAttempts)
  }

  lemma StepStaysWithinBudget(s: State, read: set<Candidate>, step: Step)
    requires LeaseInv(s) && WithinBudget(s, read) && (step.Claiming? ==> step.candidate in read)
    ensures WithinBudget(Apply(s, step), read)
  {
    if !step.Claiming? {
      StepKeepsAttempts(s, step);
      var s' := Apply(s, step);
      forall t | t in s'.tasks ensures s'.tasks[t].attempt <= Allowed(s'.tasks[t]) {
        if t in s.tasks { assert s'.tasks[t].attempt == s.tasks[t].attempt; }
      }
    }
  }

  /** Over any interleaving whatever, stale candidates included, `attempt` never exceeds the budget. */
  lemma {:induction false} AttemptsStayWithinBudget(s: State, read: set<Candidate>, steps: seq<Step>)
    requires LeaseInv(s) && WithinBudget(s, read) && ClaimsWhatWasRead(s, read, steps)
    ensures forall t | t in Exec(s, steps).tasks :: Exec(s, steps).tasks[t].attempt <= Allowed(Exec(s, steps).tasks[t])
    decreases |steps|
  {
    if steps != [] {
      var seen := read + PendingRows(s);
      assert WithinBudget(s, seen);
      StepStaysWithinBudget(s, seen, steps[0]);
      ApplyKeepsLeaseInv(s, steps[0]);
      AttemptsStayWithinBudget(Apply(s, steps[0]), seen, steps[1..]);
    }
  }

  /** The count holds before, between and after the steps. */
  predicate CountsThroughout(w: Counted, steps: seq<Step>)
    decreases |steps|
  {
    AttemptsCount(w) && (steps == [] || CountsThroughout(ApplyCounted(w, steps[0]), steps[1..]))
  }

  /** Over any interleaving, claims equal attempts at every point exactly when every claim that takes a row
      takes it as it was read. */
  lemma {:induction false} CountsThroughoutIffCurrent(w: Counted, read: set<Candidate>, steps: seq<Step>)
    requires LeaseInv(w.s) && AttemptsCount(w) && WithinBudget(w.s, read) && ClaimsWhatWasRead(w.s, read, steps)
    ensures CountsThroughout(w, steps) <==> RunCurrent(w.s, steps)
    decreases |steps|
  {
    if steps != [] {
      var (step, seen, w') := (steps[0], read + PendingRows(w.s), ApplyCounted(w, steps[0]));
      match step {
        case Claiming(c, at, worker, ttl) => ClaimCountsIffCurrent(w, c, at, worker, ttl);
        case _ => StepCountsAttempts(w, step);
      }
      if AttemptsCount(w') {
        assert WithinBudget(w.s, seen);
        StepStaysWithinBudget(w.s, seen, step);
        ApplyKeepsLeaseInv(w.s, step);
        CountsThroughoutIffCurrent(w', seen, steps[1..]);
      }
    }
  }

  // ── The claim call as steps ───────────────────────────────────────────────────────────────

  function Exhausted(c: Candidate): bool { c.attempt >= c.maxAttempts }

  /** How many turns the claim loop takes: up to and including the first candidate with attempts left. */
  function Turns(cs: seq<Candidate>): (k: nat)
    ensures k <= |cs|
    ensures forall i | 0 <= i < k - 1 :: Exhausted(cs[i])
    ensures k < |cs| ==> k > 0 && !Exhausted(cs[k - 1])
  {
    if cs == [] then 0 else if Exhausted(cs[0]) then 1 + Turns(cs[1..]) else 1
  }

  predicate AllFresh(s: State, cs: seq<Candidate>) {
    forall c | c in cs :: StillPending(s, c.id) && Current(s, c)
  }

  lemma TurnKeepsRestFresh(s: State, cs: seq<Candidate>, at: int, worker: string, ttl: int)
    requires cs != [] && DistinctIds(cs) && AllFresh(s, cs) && Exhausted(cs[0])
    ensures AllFresh(TryClaim(s, cs[0], at, worker, ttl).0, cs[1..])
  {}

  /** A claim call on a fresh answer is a run of single turns, each on a row as it was read. */
  lemma {:induction false} ClaimLoopIsSteps(s: State, cs: seq<Candidate>, at: int, worker: string, ttl: int)
    requires DistinctIds(cs) && AllFresh(s, cs)
    ensures var steps := ClaimSteps(cs[..Turns(cs)], at, worker, ttl);
      && ClaimLoop(s, cs, at, worker, ttl).0 == Exec(s, steps)
      && RunCurrent(s, steps)
    decreases |cs|
  {
    if cs != [] {
      var k := Turns(cs);
      var steps := ClaimSteps(cs[..k], at, worker, ttl);
      assert StillPending(s, cs[0].id) && Current(s, cs[0]);
      if Exhausted(cs[0]) {
        TurnKeepsRestFresh(s, cs, at, worker, ttl);
        ClaimLoopIsSteps(TryClaim(s, cs[0], at, worker, ttl).0, cs[1..], at, worker, ttl);
        assert cs[..k][1..] == cs[1..][..k - 1];
        assert steps[1..] == ClaimSteps(cs[1..][..k - 1], at, worker, ttl);
      } else {
        assert ClaimSteps(cs[..1][1..], at, worker, ttl) == [];
        assert steps[1..] == [];
      }
    }
  }

  /** It takes the first candidate with attempts left, and returns nothing only when there is none. */
  lemma {:induction false} ClaimLoopTakesFirst(s: State, cs: seq<Candidate>, at: int, worker: string, ttl: int)
    requires DistinctIds(cs) && AllFresh(s, cs)
    ensures var k := Turns(cs);
      match ClaimLoop(s, cs, at, worker, ttl).1
      case Some(claim) => k > 0 && !Exhausted(cs[k - 1]) && claim.taskId == cs[k - 1].id
      case None => forall i | 0 <= i < |cs| :: Exhausted(cs[i])
    decreases |cs|
  {
    if cs != [] {
      assert StillPending(s, cs[0].id);
      if Exhausted(cs[0]) {
        var (s', rest) := (TryClaim(s, cs[0], at, worker, ttl).0, cs[1..]);
        TurnKeepsRestFresh(s, cs, at, worker, ttl);
        ClaimLoopTakesFirst(s', rest, at, worker, ttl);
        ExhaustedTurn(s, cs, at, worker, ttl);
        assert forall i | 0 < i < |cs| :: cs[i] == rest[i - 1];
      }
    }
  }

  lemma ExhaustedTurn(s: State, cs: seq<Candidate>, at: int, worker: string, ttl: int)
    requires cs != [] && Exhausted(cs[0])
    ensures var s' := TryClaim(s, cs[0], at, worker, ttl).0;
      && ClaimLoop(s, cs, at, worker, ttl) == ClaimLoop(s', cs[1..], at, worker, ttl)
      && Turns(cs) == 1 + Turns(cs[1..])
  {
    assert TryClaim(s, cs[0], at, worker, ttl).1 == None;
  }

  /** Whatever the database answers, one whole claim call keeps the count. */
  lemma ClaimCallCountsAttempts(w: Counted, cs: seq<Candidate>, worker: string, ttl: int)
    requires LeaseInv(w.s) && AttemptsCount(w)
    requires IsDueList(Reap(w.s), DEFAULT_CLAIM_LIMIT, cs)
    ensures var steps := [Reaping] + ClaimSteps(cs[..Turns(cs)], w.s.now, worker, ttl);
      && AttemptsCount(ExecCounted(w, steps))
      && ExecCounted(w, steps).s == ClaimLoop(Reap(w.s), cs, w.s.now, worker, ttl).0
  {
    var s1 := Reap(w.s);
    assert AllFresh(s1, cs) by {
      forall c | c in cs ensures StillPending(s1, c.id) && Current(s1, c) { assert IsDue(s1, c.id); }
    }
    ClaimLoopIsSteps(s1, cs, w.s.now, worker, ttl);
    var rest := ClaimSteps(cs[..Turns(cs)], w.s.now, worker, ttl);
    var steps := [Reaping] + rest;
    assert steps[1..] == rest;
    ClaimedExactlyAttemptTimes(w, steps);
  }

  const READ := Candidate(0, "r", 0, 0, 2)

  /** Two workers read a row with two attempts left; the first claims it and fails it, and the second
      then takes it with the attempt number it had read. */
  function StaleRun(): seq<Step> {
    [ Enqueueing("r", RunPrompt("p"), 0, 2, 0),
      Claiming(READ, 0, "w1", 10),
      FailingTask(0, 2),
      Claiming(READ, 0, "w2", 10),
      FailingTask(0, 4),
      Claiming(READ.(attempt := 1), 0, "w1", 10)]
  }

  lemma {:induction false} ExecCountedInTwo(w: Counted, first: seq<Step>, rest: seq<Step>)
    ensures ExecCounted(w, first + rest) == ExecCounted(ExecCounted(w, first), rest)
    decreases |first|
  {
    if first == [] {
      assert first + rest == rest;
    } else {
      assert (first + rest)[1..] == first[1..] + rest;
      ExecCountedInTwo(ApplyCounted(w, first[0]), first[1..], rest);
    }
  }

  /** Task 0 is pending with one attempt counted, and was claimed once. */
  predicate HalfWay(w: Counted) {
    && w.s.now == 0 && w.s.nextId == 3 && ClaimsOf(w, 0) == 1
    && 0 in w.s.tasks && w.s.tasks[0] == NewTask("r", RunPrompt("p"), 0, 2, 0).(attempt := 1)
  }

  lemma StaleFirstHalf()
    ensures HalfWay(ExecCounted(Counted(Init(0), map[]), StaleRun()[..3]))
  {}

  lemma StaleSecondHalf(w: Counted)
    requires HalfWay(w)
    ensures Overclaimed(ExecCounted(w, StaleRun()[3..]))
  {}

  /** Task 0 has spent its budget of two, and was claimed three times. */
  predicate Overclaimed(w: Counted) {
    0 in w.s.tasks && w.s.tasks[0].maxAttempts == 2 && w.s.tasks[0].attempt == 2 && ClaimsOf(w, 0) == 3
  }

  /** The candidate is a row as it stands. */
  predicate IsRow(s: State, c: Candidate) { c.id in s.tasks && c == Snapshot(s, c.id) }

  /** Every candidate of that run is a row as it stood at an earlier point of the run. */
  lemma StaleCandidatesWereRead()
    ensures StaleRun()[1] == Claiming(READ, 0, "w1", 10) && StaleRun()[3] == Claiming(READ, 0, "w2", 10)
    ensures StaleRun()[5] == Claiming(READ.(attempt := 1), 0, "w1", 10)
    ensures IsRow(ExecCounted(Counted(Init(0), map[]), StaleRun()[..1]).s, READ)
    ensures IsRow(ExecCounted(Counted(Init(0), map[]), StaleRun()[..5]).s, READ.(attempt := 1))
  {
    var (w, first, rest) := (Counted(Init(0), map[]), StaleRun()[..3], StaleRun()[3..5]);
    StaleFirstHalf();
    ExecCountedInTwo(w, first, rest);
    assert first + rest == StaleRun()[..5];
    StaleFailsAgain(ExecCounted(w, first));
  }

  lemma StaleFailsAgain(w: Counted)
    requires HalfWay(w)
    ensures IsRow(ExecCounted(w, StaleRun()[3..5]).s, READ.(attempt := 1))
  {}

  /** Yet the task is claimed three times on a budget of two. */
  lemma StaleCandidateOverclaims()
    ensures Overclaimed(ExecCounted(Counted(Init(0), map[]), StaleRun()))
  {
    var (w, first, rest) := (Counted(Init(0), map[]), StaleRun()[..3], StaleRun()[3..]);
    StaleFirstHalf();
    ExecCountedInTwo(w, first, rest);
    assert first + rest == StaleRun();
    StaleSecondHalf(ExecCounted(w, first));
  }
}
