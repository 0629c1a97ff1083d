/**
 The effect table as a value, and each database write of the effect store as one step on it. A claim is
 split where other processes can run in between: the row it read may be stale by the time it writes.

 Lease tokens come from a counter that never repeats, and the token hash is collision free. `now` is
 the caller's own clock reading, so steps by different callers may disagree about the time.
 */
module EffectsModel {
  import opened Options

  type EffectId = string
  type Token = nat
  type Output = string

  datatype Status = Started | Completed | Failed | Compensating | Compensated | CompensationFailed

  datatype Hash = Hash(preimage: Token)

  function HashToken(token: Token): Hash { Hash(token) }

  datatype Row = Row(
    status: Status,
    toolName: string,
    inputHash: string,
    output: Option<Output>,
    error: Option<string>,
    tokenHash: Option<Hash>,
    leaseExpiresAt: Option<int>)

  datatype State = State(rows: map<EffectId, Row>, nextToken: Token)

  datatype ClaimInput = ClaimInput(
    id: EffectId, toolName: string, inputHash: string, now: int, ttl: int, reclaimExpired: bool)

  datatype ClaimResult =
    | Claimed(record: Row, token: Token)
    | AlreadyCompleted(record: Row)
    | InProgress(record: Row)
    | Uncertain(record: Row)
    | Unavailable(record: Row)
    | IdReused

  predicate SameEffect(input: ClaimInput, row: Row) {
    row.toolName == input.toolName && row.inputHash == input.inputHash
  }

  function FreshRow(input: ClaimInput, token: Token): Row {
    Row(Started, input.toolName, input.inputHash, None, None, Some(HashToken(token)), Some(input.now + input.ttl))
  }

  /** The insert: it fails on a taken id. The token is drawn either way. */
  function Create(s: State, input: ClaimInput): (State, Option<ClaimResult>) {
    var s1 := s.(nextToken := s.nextToken + 1);
    if input.id in s.rows then (s1, None)
    else
      var row := FreshRow(input, s.nextToken);
      (s1.(rows := s.rows[input.id := row]), Some(Claimed(row, s.nextToken)))
  }

  /** What a claim answers from a row without writing; none when it must try to take the lease over. */
  function Answer(input: ClaimInput, row: Row): Option<ClaimResult> {
    if !SameEffect(input, row) then Some(IdReused)
    else if row.status == Completed then Some(AlreadyCompleted(row))
    else if row.status != Started then Some(Unavailable(row))
    else if row.leaseExpiresAt.None? || row.leaseExpiresAt.value > input.now then Some(InProgress(row))
    else if !input.reclaimExpired then Some(Uncertain(row))
    else None
  }

  predicate Reclaimable(s: State, input: ClaimInput) {
    && input.id in s.rows
    && s.rows[input.id].status == Started
    && s.rows[input.id].leaseExpiresAt.Some?
    && s.rows[input.id].leaseExpiresAt.value <= input.now
  }

  /** What the claim answers when the lease was not there to take any more. */
  function Missed(input: ClaimInput, row: Row): ClaimResult {
    if !SameEffect(input, row) then IdReused
    else if row.status == Completed then AlreadyCompleted(row)
    else if row.status == Started then InProgress(row)
    else Unavailable(row)
  }

  /** A claim over a row read as `seen`, possibly long before. */
  function ClaimExisting(s: State, input: ClaimInput, seen: Row): (State, ClaimResult) {
    var s1 := s.(nextToken := s.nextToken + 1);
    if Answer(input, seen).Some? then (s1, Answer(input, seen).value)
    else if Reclaimable(s, input) then
      var row :=
        s.rows[input.id].(tokenHash := Some(HashToken(s.nextToken)), leaseExpiresAt := Some(input.now + input.ttl));
      (s1.(rows := s.rows[input.id := row]), Claimed(row, s.nextToken))
    else if input.id !in s.rows then (s1, Unavailable(seen))
    else (s1, Missed(input, s.rows[input.id]))
  }

  /** A whole claim with nothing in between, as the in-process lock gives it. */
  function Claim(s: State, input: ClaimInput): (State, ClaimResult) {
    if input.id in s.rows then ClaimExisting(s, input, s.rows[input.id])
    else var (s', result) := Create(s, input); (s', result.value)
  }

  /** The compare-and-set condition of heartbeat, complete and fail. */
  predicate ActiveLease(s: State, id: EffectId, token: Token, now: int) {
    && id in s.rows
    && s.rows[id].status == Started
    && s.rows[id].tokenHash == Some(HashToken(token))
    && s.rows[id].leaseExpiresAt.Some?
    && s.rows[id].leaseExpiresAt.value > now
  }

  function Heartbeat(s: State, id: EffectId, token: Token, now: int, ttl: int): State {
    if ActiveLease(s, id, token, now)
    then s.(rows := s.rows[id := s.rows[id].(leaseExpiresAt := Some(now + ttl))])
    else s
  }

  function Complete(s: State, id: EffectId, token: Token, now: int, output: Option<Output>): State {
    if ActiveLease(s, id, token, now)
    then s.(rows := s.rows[id := s.rows[id].(status := Completed, tokenHash := None, leaseExpiresAt := None,
                                            output := if output.Some? then output else s.rows[id].output)])
    else s
  }

  function Fail(s: State, id: EffectId, token: Token, now: int, error: string): State {
    if ActiveLease(s, id, token, now)
    then s.(rows := s.rows[id := s.rows[id].(status := Failed, error := Some(error), tokenHash := None,
                                            leaseExpiresAt := None)])
    else s
  }

  /** One database write by some process. */
  datatype Step =
    | Creating(input: ClaimInput)
    | ClaimingExisting(input: ClaimInput, seen: Row)
    | Beating(id: EffectId, token: Token, now: int, ttl: int)
    | Completing(id: EffectId, token: Token, now: int, output: Option<Output>)
    | Failing(id: EffectId, token: Token, now: int, error: string)

  function Apply(s: State, step: Step): State {
    match step
    case Creating(input) => Create(s, input).0
    case ClaimingExisting(input, seen) => ClaimExisting(s, input, seen).0
    case Beating(id, token, now, ttl) => Heartbeat(s, id, token, now, ttl)
    case Completing(id, token, now, output) => Complete(s, id, token, now, output)
    case Failing(id, token, now, error) => Fail(s, id, token, now, error)
  }

  function Exec(s: State, steps: seq<Step>): State
    decreases |steps|
  {
    if steps == [] then s else Exec(Apply(s, steps[0]), steps[1..])
  }

  // ── A row's life ──────────────────────────────────────────────────────────────────────────

  /** A row read as `seen` some time ago still has its identity, and has not moved at all once it had
      left `started`. */
  predicate Descends(seen: Row, s: State, id: EffectId) {
    && id in s.rows
    && s.rows[id].toolName == seen.toolName
    && s.rows[id].inputHash == seen.inputHash
    && (seen.status != Started ==> s.rows[id] == seen)
  }

  lemma StepDescends(s: State, step: Step, id: EffectId)
    requires id in s.rows
    ensures Descends(s.rows[id], Apply(s, step), id)
    ensures Apply(s, step).rows[id].status in {s.rows[id].status, Completed, Failed}
  {}

  /** Whatever anyone writes, a row keeps its tool and input, and leaves `started` at most once: the
      first status that is not `started` is final, with its output. */
  lemma {:induction false} RowsOnlyFinish(s: State, steps: seq<Step>, id: EffectId)
    requires id in s.rows
    ensures Descends(s.rows[id], Exec(s, steps), id)
    decreases |steps|
  {
    if steps != [] {
      StepDescends(s, steps[0], id);
      RowsOnlyFinish(Apply(s, steps[0]), steps[1..], id);
    }
  }

  /** Every claim accepted over a row that was really read, however stale, is for the tool and input that
      created the row; every answer of `completed` carries the one output the row will ever have; and an
      id reused for something else is refused. */
  lemma ClaimsAgreeWithRow(s: State, steps: seq<Step>, input: ClaimInput, later: seq<Step>)
    requires input.id in s.rows
    ensures var s1 := Exec(s, steps);
      var (s2, result) := ClaimExisting(s1, input, s.rows[input.id]);
      && (SameEffect(input, s.rows[input.id]) <==> !result.IdReused?)
      && (result.Claimed? ==> SameEffect(input, s2.rows[input.id]))
      && (result.AlreadyCompleted? ==>
            input.id in Exec(s2, later).rows && Exec(s2, later).rows[input.id] == result.record)
  {
    RowsOnlyFinish(s, steps, input.id);
    var s1 := Exec(s, steps);
    var (s2, result) := ClaimExisting(s1, input, s.rows[input.id]);
    StepDescends(s1, ClaimingExisting(input, s.rows[input.id]), input.id);
    RowsOnlyFinish(s2, later, input.id);
  }

  // ── At most one completion ────────────────────────────────────────────────────────────────

  predicate CompletesNow(s: State, step: Step, id: EffectId) {
    step.Completing? && step.id == id && ActiveLease(s, id, step.token, step.now)
  }

  /** How many completions of `id` succeed over a run. */
  function Completions(s: State, steps: seq<Step>, id: EffectId): nat
    decreases |steps|
  {
    if steps == [] then 0
    else (if CompletesNow(s, steps[0], id) then 1 else 0) + Completions(Apply(s, steps[0]), steps[1..], id)
  }

  lemma {:induction false} NoneAfterFinish(s: State, steps: seq<Step>, id: EffectId)
    requires id in s.rows && s.rows[id].status != Started
    ensures Completions(s, steps, id) == 0
    decreases |steps|
  {
    if steps != [] {
      StepDescends(s, steps[0], id);
      NoneAfterFinish(Apply(s, steps[0]), steps[1..], id);
    }
  }

  lemma {:induction false} AtMostOneCompletion(s: State, steps: seq<Step>, id: EffectId)
    ensures Completions(s, steps, id) <= 1
    decreases |steps|
  {
    if steps != [] {
      if CompletesNow(s, steps[0], id) {
        NoneAfterFinish(Apply(s, steps[0]), steps[1..], id);
      } else {
        AtMostOneCompletion(Apply(s, steps[0]), steps[1..], id);
      }
    }
  }

  // ── Fencing ───────────────────────────────────────────────────────────────────────────────

  /** The row of `id` is under this token's lease, expired or not. */
  predicate TokenHolds(s: State, id: EffectId, token: Token) {
    id in s.rows && s.rows[id].tokenHash == Some(HashToken(token))
  }

  lemma StepFences(s: State, step: Step, id: EffectId, token: Token)
    requires token < s.nextToken && !TokenHolds(s, id, token)
    ensures token < Apply(s, step).nextToken && !TokenHolds(Apply(s, step), id, token)
  {}

  /** Taking a lease over fences the token that held it, and every older one, for good: whatever anyone
      writes and whatever time they think it is, none of them beats, completes or fails the effect. */
  lemma {:induction false} FencedForGood(s: State, steps: seq<Step>, id: EffectId, token: Token)
    requires token < s.nextToken && !TokenHolds(s, id, token)
    ensures !TokenHolds(Exec(s, steps), id, token)
    ensures forall now :: !ActiveLease(Exec(s, steps), id, token, now)
    decreases |steps|
  {
    if steps != [] {
      StepFences(s, steps[0], id, token);
      FencedForGood(Apply(s, steps[0]), steps[1..], id, token);
    }
  }

  lemma ReclaimFences(s: State, input: ClaimInput, seen: Row, steps: seq<Step>, token: Token)
    requires ClaimExisting(s, input, seen).1.Claimed? && token < s.nextToken
    ensures var s' := Exec(ClaimExisting(s, input, seen).0, steps);
      forall now :: !ActiveLease(s', input.id, token, now)
  {
    FencedForGood(ClaimExisting(s, input, seen).0, steps, input.id, token);
  }
}
