/**
 Continuing an approved action, by any number of callers at once and any number of times over. Each
 call reads the approval, consumes it (or replays one already consumed), and runs the tool under the
 effect id the approval fixes. For a tool without idempotency an expired effect lease is never taken
 over, and then the tool runs at most once.
 */
module ApprovedOnce {
  import opened Options
  import E = EffectsModel
  import D = DurableStores

  type CallId = nat

  /** Where a `continueRun` call stands. It can stop for good at any point. */
  datatype Pc =
    | Entered
    | Loaded(replay: bool)
    | Cleared
    | Seen(row: Option<E.Row>)
    | Holding(token: E.Token)
    | Ran(token: E.Token)
    | Ended

  /** The effect every call uses: its id comes from the approval and the tool call, its tool and
      input from the approval record. */
  datatype Effect = Effect(id: E.EffectId, toolName: string, inputHash: string)

  datatype System = System(
    approval: D.Approval,
    effects: E.State,
    calls: map<CallId, Pc>,
    executions: nat,
    consumptions: nat)

  datatype Action =
    | Call(call: CallId)
    | Decide(approver: string, granted: bool)
    | Load(call: CallId)
    | TakeApproval(call: CallId, now: int, permitted: bool)
    | ReadEffect(call: CallId)
    | ClaimEffect(call: CallId, now: int, ttl: int)
    | Execute(call: CallId)
    | Settle(call: CallId, now: int, outcome: Option<E.Output>)
    | Beat(call: CallId, now: int, ttl: int)
    | Crash(call: CallId)
    | Elsewhere(step: E.Step)

  function StepId(step: E.Step): E.EffectId {
    match step
    case Creating(input) => input.id
    case ClaimingExisting(input, _) => input.id
    case Beating(id, _, _, _) => id
    case Completing(id, _, _, _) => id
    case Failing(id, _, _, _) => id
  }

  function Move(y: System, call: CallId, pc: Pc): System { y.(calls := y.calls[call := pc]) }

  function Input(e: Effect, now: int, ttl: int, reclaim: bool): E.ClaimInput {
    E.ClaimInput(e.id, e.toolName, e.inputHash, now, ttl, reclaim)
  }

  /** The claim of `runTool` over what was read: a lost insert reads again, and every answer but an
      accepted claim ends the call without running the tool. */
  function ClaimStep(y: System, e: Effect, call: CallId, seen: Option<E.Row>, input: E.ClaimInput): System {
    match seen
    case None =>
      var (effects, created) := E.Create(y.effects, input);
      Move(y.(effects := effects), call, if created.Some? then Holding(y.effects.nextToken) else Cleared)
    case Some(row) =>
      var (effects, result) := E.ClaimExisting(y.effects, input, row);
      Move(y.(effects := effects), call, if result.Claimed? then Holding(result.token) else Ended)
  }

  /** One action; an action its caller is not at changes nothing. `reclaim` says whether the tool's
      idempotency lets an expired effect lease be taken over. */
  function Act(y: System, e: Effect, reclaim: bool, action: Action): System {
    match action
    case Call(c) => if c in y.calls then y else Move(y, c, Entered)
    case Decide(approver, granted) =>
      y.(approval := D.After(y.approval, if granted then D.Grant(approver) else D.Deny(approver, None)))
    case Elsewhere(step) => if StepId(step) == e.id then y else y.(effects := E.Apply(y.effects, step))
    case Crash(c) => if c in y.calls then Move(y, c, Ended) else y
    case Load(c) =>
      if c !in y.calls || y.calls[c] != Entered then y
      else if y.approval.status == D.Approved then Move(y, c, Loaded(false))
      else if y.approval.status == D.Consumed then Move(y, c, Loaded(true))
      else Move(y, c, Ended)
    case TakeApproval(c, now, permitted) =>
      if c !in y.calls || !y.calls[c].Loaded? then y
      else if y.calls[c].replay then Move(y, c, if permitted then Cleared else Ended)
      else if D.Takes(y.approval, D.Consume(now)) then
        Move(y.(approval := D.After(y.approval, D.Consume(now)), consumptions := y.consumptions + 1), c,
             if permitted then Cleared else Ended)
      else Move(y, c, Ended)
    case ReadEffect(c) =>
      if c !in y.calls || y.calls[c] != Cleared then y
      else Move(y, c, Seen(if e.id in y.effects.rows then Some(y.effects.rows[e.id]) else None))
    case ClaimEffect(c, now, ttl) =>
      if c !in y.calls || !y.calls[c].Seen? then y
      else ClaimStep(y, e, c, y.calls[c].row, Input(e, now, ttl, reclaim))
    case Execute(c) =>
      if c !in y.calls || !y.calls[c].Holding? then y
      else Move(y.(executions := y.executions + 1), c, Ran(y.calls[c].token))
    case Settle(c, now, outcome) =>
      if c !in y.calls || !y.calls[c].Ran? then y
      else
        var token := y.calls[c].token;
        Move(y.(effects := if outcome.Some? then E.Complete(y.effects, e.id, token, now, outcome)
                           else E.Fail(y.effects, e.id, token, now, "failed")), c, Ended)
    case Beat(c, now, ttl) =>
      if c in y.calls && y.calls[c].Holding? then
        y.(effects := E.Heartbeat(y.effects, e.id, y.calls[c].token, now, ttl))
      else if c in y.calls && y.calls[c].Ran? then
        y.(effects := E.Heartbeat(y.effects, e.id, y.calls[c].token, now, ttl))
      else y
  }

  function ActAll(y: System, e: Effect, reclaim: bool, actions: seq<Action>): System
    decreases |actions|
  {
    if actions == [] then y else ActAll(Act(y, e, reclaim, actions[0]), e, reclaim, actions[1..])
  }

  // ── At most once ──────────────────────────────────────────────────────────────────────────

  /** The approval lets this call be where it is. */
  predicate Authorized(y: System, pc: Pc) {
    match pc
    case Loaded(replay) => y.approval.status == D.Consumed || (!replay && y.approval.status == D.Approved)
    case Cleared => y.approval.status == D.Consumed
    case Seen(_) => y.approval.status == D.Consumed
    case Holding(_) => y.approval.status == D.Consumed
    case Ran(_) => y.approval.status == D.Consumed
    case _ => true
  }

  predicate NoneHolds(y: System) { forall c | c in y.calls :: !y.calls[c].Holding? }

  predicate OnceInv(y: System, e: Effect) {
    && (e.id !in y.effects.rows ==> NoneHolds(y) && y.executions == 0)
    && (y.executions > 0 ==> NoneHolds(y))
    && y.executions <= 1
    && (forall c1, c2 | c1 in y.calls && c2 in y.calls && y.calls[c1].Holding? && y.calls[c2].Holding? :: c1 == c2)
    && (forall c | c in y.calls :: Authorized(y, y.calls[c]))
    && (y.executions == 1 ==> y.approval.status == D.Consumed)
    && y.consumptions == (if y.approval.status == D.Consumed then 1 else 0)
  }

  lemma ElsewhereKeepsRow(s: E.State, step: E.Step, id: E.EffectId)
    requires StepId(step) != id
    ensures id in E.Apply(s, step).rows <==> id in s.rows
  {}

  /** Without reclaiming, only the insert accepts a claim, and only while there is no row. */
  lemma ClaimKeepsOnce(y: System, e: Effect, call: CallId, now: int, ttl: int)
    requires OnceInv(y, e) && call in y.calls && y.calls[call].Seen?
    ensures OnceInv(ClaimStep(y, e, call, y.calls[call].row, Input(e, now, ttl, false)), e)
  {}

  lemma TakeKeepsOnce(y: System, e: Effect, call: CallId, now: int, permitted: bool)
    requires OnceInv(y, e)
    ensures OnceInv(Act(y, e, false, TakeApproval(call, now, permitted)), e)
  {
    var y' := Act(y, e, false, TakeApproval(call, now, permitted));
    forall c | c in y'.calls ensures Authorized(y', y'.calls[c]) { assert Authorized(y, y.calls[c]); }
  }

  lemma MoveKeepsOnce(y: System, e: Effect, call: CallId, pc: Pc)
    requires OnceInv(y, e) && !pc.Holding? && Authorized(y, pc)
    ensures OnceInv(Move(y, call, pc), e)
  {}

  lemma EffectsKeepOnce(y: System, e: Effect, effects: E.State)
    requires OnceInv(y, e) && (e.id in y.effects.rows <==> e.id in effects.rows)
    ensures OnceInv(y.(effects := effects), e)
  {}

  lemma DecideKeepsOnce(y: System, e: Effect, approver: string, granted: bool)
    requires OnceInv(y, e)
    ensures OnceInv(Act(y, e, false, Decide(approver, granted)), e)
  {}

  lemma ExecuteKeepsOnce(y: System, e: Effect, call: CallId)
    requires OnceInv(y, e)
    ensures OnceInv(Act(y, e, false, Execute(call)), e)
  {}

  lemma ActKeepsOnce(y: System, e: Effect, action: Action)
    requires OnceInv(y, e)
    ensures OnceInv(Act(y, e, false, action), e)
  {
    match action
    case Call(c) => if c !in y.calls { MoveKeepsOnce(y, e, c, Entered); }
    case Decide(approver, granted) => DecideKeepsOnce(y, e, approver, granted);
    case Elsewhere(step) =>
      if StepId(step) != e.id {
        ElsewhereKeepsRow(y.effects, step, e.id);
        EffectsKeepOnce(y, e, E.Apply(y.effects, step));
      }
    case Crash(c) => if c in y.calls { MoveKeepsOnce(y, e, c, Ended); }
    case Load(c) =>
      if c in y.calls && y.calls[c] == Entered {
        MoveKeepsOnce(y, e, c, if y.approval.status == D.Approved then Loaded(false)
                               else if y.approval.status == D.Consumed then Loaded(true) else Ended);
      }
    case TakeApproval(c, now, permitted) => TakeKeepsOnce(y, e, c, now, permitted);
    case ReadEffect(c) =>
      if c in y.calls && y.calls[c] == Cleared {
        assert Authorized(y, y.calls[c]);
        MoveKeepsOnce(y, e, c, Seen(if e.id in y.effects.rows then Some(y.effects.rows[e.id]) else None));
      }
    case ClaimEffect(c, now, ttl) => if c in y.calls && y.calls[c].Seen? { ClaimKeepsOnce(y, e, c, now, ttl); }
    case Execute(c) => ExecuteKeepsOnce(y, e, c);
    case Settle(c, now, outcome) =>
      if c in y.calls && y.calls[c].Ran? {
        var token := y.calls[c].token;
        var effects := if outcome.Some? then E.Complete(y.effects, e.id, token, now, outcome)
                       else E.Fail(y.effects, e.id, token, now, "failed");
        EffectsKeepOnce(y, e, effects);
        MoveKeepsOnce(y.(effects := effects), e, c, Ended);
      }
    case Beat(c, now, ttl) =>
      if c in y.calls && (y.calls[c].Holding? || y.calls[c].Ran?) {
        EffectsKeepOnce(y, e, E.Heartbeat(y.effects, e.id, y.calls[c].token, now, ttl));
      }
  }

  /** Over any interleaving of any number of continueRun calls, replays of a consumed approval and
      crashes included, the tool runs at most once, only after the approval was granted and consumed,
      and the approval is consumed at most once. */
  lemma {:induction false} ApprovedRunsAtMostOnce(y: System, e: Effect, actions: seq<Action>)
    requires OnceInv(y, e)
    ensures var z := ActAll(y, e, false, actions);
      && OnceInv(z, e)
      && z.executions <= 1 && z.consumptions <= 1
      && (z.executions == 1 ==> z.approval.status == D.Consumed && z.consumptions == 1)
    decreases |actions|
  {
    if actions != [] {
      ActKeepsOnce(y, e, actions[0]);
      ApprovedRunsAtMostOnce(Act(y, e, false, actions[0]), e, actions[1..]);
    }
  }

  /** A freshly parked approval, whose effect id nothing has used, starts that way. */
  lemma ParkedApprovalStarts(y: System, e: Effect)
    requires y.approval.status == D.Pending && e.id !in y.effects.rows
    requires y.calls == map[] && y.executions == 0 && y.consumptions == 0
    ensures OnceInv(y, e)
  {}

  /** A denied approval never runs anything. */
  lemma DeniedNeverRuns(y: System, e: Effect, actions: seq<Action>)
    requires OnceInv(y, e) && y.approval.status == D.Denied
    ensures ActAll(y, e, false, actions).executions == 0
    ensures ActAll(y, e, false, actions).approval == y.approval
    decreases |actions|
  {
    if actions != [] {
      ActKeepsOnce(y, e, actions[0]);
      DeniedNeverRuns(Act(y, e, false, actions[0]), e, actions[1..]);
    }
  }

  // ── Why reclaiming must be off ────────────────────────────────────────────────────────────

  /** Two calls get past the approval, one consuming it and one replaying it; the first claims the effect. */
  function GrantScript(): seq<Action> {
    [Decide("approver", true), Call(0), Call(1), Load(0), TakeApproval(0, 0, true), Load(1), TakeApproval(1, 0, true)]
  }

  /** The second takes over the effect lease that the first let expire, and both execute. */
  function ExpireScript(): seq<Action> {
    [ReadEffect(0), ClaimEffect(0, 0, 10), ReadEffect(1), ClaimEffect(1, 20, 10), Execute(0), Execute(1)]
  }

  lemma BothCleared(y: System, e: Effect)
    requires y.approval.status == D.Pending && y.approval.expiresAt.None? && y.calls == map[]
    ensures var z := ActAll(y, e, true, GrantScript());
      z.effects == y.effects && z.executions == y.executions && z.calls == map[0 := Cleared, 1 := Cleared]
  {}

  lemma BothExecute(y: System, e: Effect)
    requires y.calls == map[0 := Cleared, 1 := Cleared] && e.id !in y.effects.rows
    ensures ActAll(y, e, true, ExpireScript()).executions == y.executions + 2
  {}

  lemma {:induction false} ActAllInTwo(y: System, e: Effect, reclaim: bool, first: seq<Action>, rest: seq<Action>)
    ensures ActAll(y, e, reclaim, first + rest) == ActAll(ActAll(y, e, reclaim, first), e, reclaim, rest)
    decreases |first|
  {
    if first == [] {
      assert first + rest == rest;
    } else {
      assert (first + rest)[1..] == first[1..] + rest;
      ActAllInTwo(Act(y, e, reclaim, first[0]), e, reclaim, first[1..], rest);
    }
  }

  /** A tool whose idempotency lets an expired effect lease be taken over can run twice under one
      consumed approval. */
  lemma ReclaimCanRunTwice(y: System, e: Effect)
    requires y.approval.status == D.Pending && y.approval.expiresAt.None? && y.calls == map[]
    requires e.id !in y.effects.rows && y.executions == 0
    ensures ActAll(y, e, true, GrantScript() + ExpireScript()).executions == 2
  {
    BothCleared(y, e);
    BothExecute(ActAll(y, e, true, GrantScript()), e);
    ActAllInTwo(y, e, true, GrantScript(), ExpireScript());
  }
}
