/**
 The model loop and its two kinds of interruption. A slice that passes its soft deadline parks a yield
 checkpoint and a later slice resumes it; a gate that asks parks the call, and once it is granted the
 run continues with that gate bypassed. The model, the tools, the gates and redaction are deterministic
 functions of what they are given, and `late` says after which steps a slice finds its deadline passed.

 The main result, InterruptionsAreTransparent, says that a run cut into slices and parked at gates in
 any way ends exactly as the uninterrupted run in which those gates had permitted.
 */
module GovernedLoop {
  import opened Options
  import opened Governance

  datatype Call = Call(id: string, name: string, input: string)

  datatype Message =
    | User(text: string)
    | Assistant(text: string, calls: seq<Call>)
    | ToolResult(callId: string, toolName: string, value: string)

  datatype Usage = Usage(
    input: Option<nat>, noCache: Option<nat>, cacheRead: Option<nat>, cacheWrite: Option<nat>,
    output: Option<nat>, text: Option<nat>, reasoning: Option<nat>, total: Option<nat>)

  datatype Reply = Reply(messages: seq<Message>, calls: seq<Call>, text: string, usage: Usage)

  datatype ModelRun = Replied(reply: Reply) | ModelFailed(error: string)

  datatype Env = Env(
    model: seq<Message> -> ModelRun,
    redact: string -> string,
    gates: seq<Gate>,
    tool: ToolCall -> ToolRun,
    maxSteps: nat)

  // ── Usage ─────────────────────────────────────────────────────────────────────────────────

  /** A count that neither side reports stays unreported; a count only one side reports is taken as it is. */
  function AddCounts(a: Option<nat>, b: Option<nat>): Option<nat> {
    if a.None? && b.None? then None
    else Some((if a.Some? then a.value else 0) + (if b.Some? then b.value else 0))
  }

  function AddUsage(a: Option<Usage>, b: Option<Usage>): Option<Usage> {
    if a.None? then b
    else if b.None? then a
    else
      var (x, y) := (a.value, b.value);
      Some(Usage(AddCounts(x.input, y.input), AddCounts(x.noCache, y.noCache), AddCounts(x.cacheRead, y.cacheRead),
                 AddCounts(x.cacheWrite, y.cacheWrite), AddCounts(x.output, y.output), AddCounts(x.text, y.text),
                 AddCounts(x.reasoning, y.reasoning), AddCounts(x.total, y.total)))
  }

  lemma AddCountsAssociates(a: Option<nat>, b: Option<nat>, c: Option<nat>)
    ensures AddCounts(AddCounts(a, b), c) == AddCounts(a, AddCounts(b, c))
  {}

  lemma AddUsageAssociates(a: Option<Usage>, b: Option<Usage>, c: Option<Usage>)
    ensures AddUsage(AddUsage(a, b), c) == AddUsage(a, AddUsage(b, c))
  {
    if a.Some? && b.Some? && c.Some? {
      var (x, y, z) := (a.value, b.value, c.value);
      AddCountsAssociates(x.input, y.input, z.input);
      AddCountsAssociates(x.noCache, y.noCache, z.noCache);
      AddCountsAssociates(x.cacheRead, y.cacheRead, z.cacheRead);
      AddCountsAssociates(x.cacheWrite, y.cacheWrite, z.cacheWrite);
      AddCountsAssociates(x.output, y.output, z.output);
      AddCountsAssociates(x.text, y.text, z.text);
      AddCountsAssociates(x.reasoning, y.reasoning, z.reasoning);
      AddCountsAssociates(x.total, y.total, z.total);
    }
  }

  // ── One step ──────────────────────────────────────────────────────────────────────────────

  /** What an approval record keeps of a parked call: the call to replay, the gate that asked, and the
      resume state. */
  datatype Parked = Parked(gateId: string, call: ToolCall, messages: seq<Message>, step: nat, callId: string)

  datatype End =
    | Answered(text: string, steps: nat, transcript: seq<Message>)
    | Failed(error: string)
    | Exceeded(transcript: seq<Message>)
    | AskedAgain(gateId: string)
    | Yielded(nextStep: nat, messages: seq<Message>)
    | Waiting(parked: Parked)

  const TOO_MANY_CALLS := "euroclaw runtime currently supports one tool call per model step"

  /** The tool message's text: a redacted output, or the governance note of a refusal. */
  function Shown(env: Env, outcome: Outcome): string {
    match outcome
    case Ok(output) => env.redact(output)
    case Denied(_, reason) => "denied: " + reason
    case NeedsApproval(_, reason) => "needs-approval: " + reason
    case Error(reason) => "error: " + reason
  }

  /** Model-written arguments are redacted by the loop and again at the governed call. */
  function Governable(env: Env, call: Call): ToolCall { ToolCall(call.name, env.redact(env.redact(call.input))) }

  datatype StepResult = Stop(end: End) | Go(messages: seq<Message>)

  /** The transcript and call after a governed call returned without asking. */
  function WithResult(env: Env, messages: seq<Message>, callId: string, name: string, outcome: Outcome): seq<Message> {
    messages + [ToolResult(callId, name, Shown(env, outcome))]
  }

  function AfterReply(env: Env, messages: seq<Message>, step: nat, reply: Reply): StepResult {
    if |reply.calls| == 0 then Stop(Answered(reply.text, step + 1, messages))
    else if |reply.calls| > 1 then Stop(Failed(TOO_MANY_CALLS))
    else
      var call := reply.calls[0];
      match Governed(env.gates, env.tool, Governable(env, call), None)
      case Thrown(error) => Stop(Failed(error))
      case Returned(NeedsApproval(gateId, _)) =>
        Stop(Waiting(Parked(gateId, Governable(env, call), messages, step, call.id)))
      case Returned(outcome) => Go(WithResult(env, messages, call.id, call.name, outcome))
  }

  function StepOnce(env: Env, messages: seq<Message>, step: nat): (StepResult, Option<Usage>) {
    match env.model(messages)
    case ModelFailed(error) => (Stop(Failed(error)), None)
    case Replied(reply) => (AfterReply(env, messages + reply.messages, step, reply), Some(reply.usage))
  }

  // ── One invocation ────────────────────────────────────────────────────────────────────────

  type Clock = nat -> bool

  /** The loop from `step` on, with the usage of its model calls. */
  function Run(env: Env, messages: seq<Message>, step: nat, late: Clock): (End, Option<Usage>)
    decreases env.maxSteps - step
  {
    if step >= env.maxSteps then (Exceeded(messages), None)
    else
      var (result, usage) := StepOnce(env, messages, step);
      match result
      case Stop(end) => (end, usage)
      case Go(messages') =>
        if step + 1 < env.maxSteps && late(step) then (Yielded(step + 1, messages'), usage)
        else
          var (end, rest) := Run(env, messages', step + 1, late);
          (end, AddUsage(usage, rest))
  }

  function Never(): Clock { step => false }

  predicate IsFinal(end: End) { !end.Yielded? && !end.Waiting? }

  /** Going on from a parked call whose governed result is `r`. */
  function GoOn(env: Env, r: Result, p: Parked, late: Clock): (End, Option<Usage>) {
    match r
    case Thrown(error) => (Failed(error), None)
    case Returned(outcome) =>
      Run(env, WithResult(env, p.messages, p.callId, p.call.name, outcome), p.step + 1, late)
  }

  predicate Asks(r: Result) { r.Returned? && r.outcome.NeedsApproval? }

  /** `continueRun` on a granted approval: replay the call with its gate bypassed, then go on. */
  function Continue(env: Env, p: Parked, late: Clock): (End, Option<Usage>) {
    var r := Governed(env.gates, env.tool, p.call, Some(p.gateId));
    if Asks(r) then (AskedAgain(r.outcome.gateId), None) else GoOn(env, r, p, late)
  }

  /** Resume a yield, or continue a granted approval. */
  function Next(env: Env, end: End, late: Clock): (End, Option<Usage>)
    requires !IsFinal(end)
  {
    match end
    case Yielded(nextStep, messages) => Run(env, messages, nextStep, late)
    case Waiting(parked) => Continue(env, parked, late)
  }

  /** Carry a run on, one invocation per clock, until it is final or the clocks run out. */
  function Drive(env: Env, end: End, lates: seq<Clock>): (End, Option<Usage>)
    decreases |lates|
  {
    if IsFinal(end) || lates == [] then (end, None)
    else
      var (next, usage) := Next(env, end, lates[0]);
      var (last, rest) := Drive(env, next, lates[1..]);
      (last, AddUsage(usage, rest))
  }

  // ── Permitting what was asked ─────────────────────────────────────────────────────────────

  function Granting(decide: ToolCall -> Verdict): ToolCall -> Verdict {
    call => if decide(call).Ask? then Permit else decide(call)
  }

  function Lenient(g: Gate): Gate { Gate(g.id, g.isSealed, g.matches, Granting(g.decide)) }

  function LenientAll(gates: seq<Gate>): seq<Gate> { seq(|gates|, i requires 0 <= i < |gates| => Lenient(gates[i])) }

  /** The same run where every gate that asks had permitted. */
  function Permitting(env: Env): Env { env.(gates := LenientAll(env.gates)) }

  lemma FirstBlockIs(gates: seq<Gate>, call: ToolCall, bypass: Option<string>, i: nat)
    requires i <= |gates|
    requires forall k | 0 <= k < i :: !Blocks(gates[k], call, bypass)
    requires i < |gates| ==> Blocks(gates[i], call, bypass)
    ensures FirstBlock(gates, call, bypass) == i
  {
    FirstBlockFinds(gates, call, bypass);
  }

  /** Where nothing asks, permitting what asks changes nothing. */
  lemma UnaskedIsPermitted(gates: seq<Gate>, tool: ToolCall -> ToolRun, call: ToolCall)
    requires !Asks(Governed(gates, tool, call, None))
    ensures Governed(LenientAll(gates), tool, call, None) == Governed(gates, tool, call, None)
  {
    var i, lenient := FirstBlock(gates, call, None), LenientAll(gates);
    FirstBlockFinds(gates, call, None);
    forall k | 0 <= k < i ensures !Blocks(lenient[k], call, None) { assert !Blocks(gates[k], call, None); }
    FirstBlockIs(lenient, call, None, i);
  }

  /** Bypassing the gate that asked gives the permitted run's result, unless another gate asks too; and
      then it never does. */
  lemma BypassIsPermitted(gates: seq<Gate>, tool: ToolCall -> ToolRun, call: ToolCall)
    requires DistinctGates(gates)
    requires Asks(Governed(gates, tool, call, None))
    ensures var asked := Governed(gates, tool, call, None).outcome.gateId;
      var again := Governed(gates, tool, call, Some(asked));
      Governed(LenientAll(gates), tool, call, None) == again <==> !Asks(again)
  {
    var a := FirstBlock(gates, call, None);
    var asked := gates[a].id;
    var i, lenient := FirstBlock(gates, call, Some(asked)), LenientAll(gates);
    FirstBlockFinds(gates, call, Some(asked));
    if i == |gates| || !gates[i].decide(call).Ask? {
      forall k | 0 <= k < i ensures !Blocks(lenient[k], call, None) {
        assert k == a || !Blocks(gates[k], call, Some(asked));
      }
      FirstBlockIs(lenient, call, None, i);
    } else {
      assert forall k | 0 <= k < |lenient| :: !lenient[k].decide(call).Ask?;
    }
  }

  /** A gate list where no call is asked about by two gates never asks again. */
  predicate OneAsks(gates: seq<Gate>, call: ToolCall) {
    forall i, j | 0 <= i < |gates| && 0 <= j < |gates| &&
        gates[i].matches(call) && gates[i].decide(call).Ask? && gates[j].matches(call) && gates[j].decide(call).Ask? ::
      i == j
  }

  // ── Transparency ──────────────────────────────────────────────────────────────────────────

  /** What is still to come of the permitted run, from an end of an interrupted one. */
  function Rest(env: Env, end: End): (End, Option<Usage>) {
    match end
    case Yielded(nextStep, messages) => Run(Permitting(env), messages, nextStep, Never())
    case Waiting(p) =>
      GoOn(Permitting(env), Governed(LenientAll(env.gates), env.tool, p.call, None), p, Never())
    case _ => (end, None)
  }

  /** The call was parked because this environment's gates ask about it. */
  predicate WellParked(env: Env, end: End) {
    end.Waiting? ==>
      var p := end.parked;
      && p.step < env.maxSteps
      && var r := Governed(env.gates, env.tool, p.call, None);
      && Asks(r) && r.outcome.gateId == p.gateId
  }

  lemma LenientNeverAsks(gates: seq<Gate>, tool: ToolCall -> ToolRun, call: ToolCall)
    ensures !Asks(Governed(LenientAll(gates), tool, call, None))
  {}

  /** One step of the interrupted run against the same step of the permitted run. */
  lemma StepMatches(env: Env, messages: seq<Message>, step: nat)
    requires step < env.maxSteps
    ensures var (result, usage) := StepOnce(env, messages, step);
      var (result', usage') := StepOnce(Permitting(env), messages, step);
      && usage' == usage
      && (result.Stop? && result.end.Waiting? ==>
            && WellParked(env, result.end)
            && result.end.parked.step == step
            && result' == (match Governed(LenientAll(env.gates), env.tool, result.end.parked.call, None)
                           case Thrown(error) => Stop(Failed(error))
                           case Returned(outcome) =>
                             Go(WithResult(env, result.end.parked.messages, result.end.parked.callId,
                                           result.end.parked.call.name, outcome))))
      && (!(result.Stop? && result.end.Waiting?) ==> result' == result)
      && (result.Stop? ==> !result.end.Yielded? && !result.end.AskedAgain? && !result.end.Exceeded?)
  {
    match env.model(messages)
    case ModelFailed(_) =>
    case Replied(reply) =>
      if |reply.calls| == 1 {
        var call := Governable(env, reply.calls[0]);
        LenientNeverAsks(env.gates, env.tool, call);
        if !Asks(Governed(env.gates, env.tool, call, None)) { UnaskedIsPermitted(env.gates, env.tool, call); }
      }
  }

  /** A step that goes on, in a run that is never late. */
  lemma RunGoesOn(env: Env, messages: seq<Message>, step: nat, messages': seq<Message>, usage: Option<Usage>)
    requires step < env.maxSteps && StepOnce(env, messages, step) == (Go(messages'), usage)
    ensures var (end, rest) := Run(env, messages', step + 1, Never());
      Run(env, messages, step, Never()) == (end, AddUsage(usage, rest))
  {}

  lemma RunStops(env: Env, messages: seq<Message>, step: nat, end: End, usage: Option<Usage>)
    requires step < env.maxSteps && StepOnce(env, messages, step) == (Stop(end), usage)
    ensures Run(env, messages, step, Never()) == (end, usage)
  {}

  /** A step whose call goes on as the governed result `r` says. */
  lemma RunIsGoOn(env: Env, messages: seq<Message>, step: nat, r: Result, p: Parked, usage: Option<Usage>)
    requires step < env.maxSteps && p.step == step
    requires StepOnce(env, messages, step) == (match r
               case Thrown(error) => Stop(Failed(error))
               case Returned(outcome) => Go(WithResult(env, p.messages, p.callId, p.call.name, outcome)), usage)
    ensures Run(env, messages, step, Never()) ==
            (GoOn(env, r, p, Never()).0, AddUsage(usage, GoOn(env, r, p, Never()).1))
  {
    match r
    case Thrown(error) => RunStops(env, messages, step, Failed(error), usage);
    case Returned(outcome) =>
      RunGoesOn(env, messages, step, WithResult(env, p.messages, p.callId, p.call.name, outcome), usage);
  }

  lemma ParkPlusRest(env: Env, messages: seq<Message>, step: nat, p: Parked, usage: Option<Usage>)
    requires step < env.maxSteps && StepOnce(env, messages, step) == (Stop(Waiting(p)), usage)
    ensures WellParked(env, Waiting(p))
    ensures Run(Permitting(env), messages, step, Never())
         == (Rest(env, Waiting(p)).0, AddUsage(usage, Rest(env, Waiting(p)).1))
  {
    StepMatches(env, messages, step);
    RunIsGoOn(Permitting(env), messages, step, Governed(LenientAll(env.gates), env.tool, p.call, None), p, usage);
  }

  lemma StopPlusRest(env: Env, messages: seq<Message>, step: nat)
    requires step < env.maxSteps && StepOnce(env, messages, step).0.Stop?
    ensures var (result, usage) := StepOnce(env, messages, step);
      && WellParked(env, result.end)
      && !result.end.AskedAgain?
      && Run(Permitting(env), messages, step, Never()) ==
         (Rest(env, result.end).0, AddUsage(usage, Rest(env, result.end).1))
  {
    StepMatches(env, messages, step);
    var (result, usage) := StepOnce(env, messages, step);
    if result.end.Waiting? { ParkPlusRest(env, messages, step, result.end.parked, usage); }
  }

  /** What one invocation did and what is left make up the permitted run, usage included. */
  lemma {:induction false} RunPlusRest(env: Env, messages: seq<Message>, step: nat, late: Clock)
    ensures var (end, usage) := Run(env, messages, step, late);
      && WellParked(env, end)
      && !end.AskedAgain?
      && Run(Permitting(env), messages, step, Never()) == (Rest(env, end).0, AddUsage(usage, Rest(env, end).1))
    decreases env.maxSteps - step
  {
    if step < env.maxSteps {
      var (result, usage) := StepOnce(env, messages, step);
      if result.Stop? {
        StopPlusRest(env, messages, step);
      } else {
        StepMatches(env, messages, step);
        GoPlusRest(env, messages, step, late);
      }
    }
  }

  lemma {:induction false} GoPlusRest(env: Env, messages: seq<Message>, step: nat, late: Clock)
    requires step < env.maxSteps && StepOnce(env, messages, step).0.Go?
    requires StepOnce(Permitting(env), messages, step) == StepOnce(env, messages, step)
    ensures var (end, usage) := Run(env, messages, step, late);
      && WellParked(env, end)
      && !end.AskedAgain?
      && Run(Permitting(env), messages, step, Never()) == (Rest(env, end).0, AddUsage(usage, Rest(env, end).1))
    decreases env.maxSteps - step, 0
  {
    var (result, usage) := StepOnce(env, messages, step);
    if !(step + 1 < env.maxSteps && late(step)) {
      RunPlusRest(env, result.messages, step + 1, late);
      var (end, rest) := Run(env, result.messages, step + 1, late);
      AddUsageAssociates(usage, rest, Rest(env, end).1);
    }
  }

  lemma PermittingShowsTheSame(env: Env, messages: seq<Message>, callId: string, name: string, outcome: Outcome)
    ensures WithResult(Permitting(env), messages, callId, name, outcome) ==
            WithResult(env, messages, callId, name, outcome)
  {}

  lemma GoOnPlusRest(env: Env, r: Result, p: Parked, late: Clock)
    ensures var (next, usage) := GoOn(env, r, p, late);
      && WellParked(env, next)
      && !next.AskedAgain?
      && GoOn(Permitting(env), r, p, Never()) == (Rest(env, next).0, AddUsage(usage, Rest(env, next).1))
  {
    if r.Returned? {
      PermittingShowsTheSame(env, p.messages, p.callId, p.call.name, r.outcome);
      var messages := WithResult(env, p.messages, p.callId, p.call.name, r.outcome);
      assert GoOn(env, r, p, late) == Run(env, messages, p.step + 1, late);
      assert GoOn(Permitting(env), r, p, Never()) == Run(Permitting(env), messages, p.step + 1, Never());
      RunPlusRest(env, messages, p.step + 1, late);
    }
  }

  lemma ContinuePlusRest(env: Env, p: Parked, late: Clock)
    requires DistinctGates(env.gates) && WellParked(env, Waiting(p))
    ensures var (next, usage) := Continue(env, p, late);
      && WellParked(env, next)
      && (!next.AskedAgain? ==> Rest(env, Waiting(p)) == (Rest(env, next).0, AddUsage(usage, Rest(env, next).1)))
  {
    BypassIsPermitted(env.gates, env.tool, p.call);
    var r := Governed(env.gates, env.tool, p.call, Some(p.gateId));
    if !Asks(r) { GoOnPlusRest(env, r, p, late); }
  }

  /** One more invocation takes the permitted run on, unless another gate asks about the parked call. */
  lemma NextPlusRest(env: Env, end: End, late: Clock)
    requires DistinctGates(env.gates) && !IsFinal(end) && WellParked(env, end)
    ensures var (next, usage) := Next(env, end, late);
      && WellParked(env, next)
      && (!next.AskedAgain? ==> Rest(env, end) == (Rest(env, next).0, AddUsage(usage, Rest(env, next).1)))
  {
    match end
    case Yielded(nextStep, messages) => RunPlusRest(env, messages, nextStep, late);
    case Waiting(p) => ContinuePlusRest(env, p, late);
  }

  lemma {:induction false} DrivePlusRest(env: Env, end: End, lates: seq<Clock>)
    requires DistinctGates(env.gates) && WellParked(env, end)
    ensures var (last, usage) := Drive(env, end, lates);
      !last.AskedAgain? ==> Rest(env, end) == (Rest(env, last).0, AddUsage(usage, Rest(env, last).1))
    decreases |lates|
  {
    if !IsFinal(end) && lates != [] {
      var (next, usage) := Next(env, end, lates[0]);
      NextPlusRest(env, end, lates[0]);
      DrivePlusRest(env, next, lates[1..]);
      var (last, rest) := Drive(env, next, lates[1..]);
      AddUsageAssociates(usage, rest, Rest(env, last).1);
      if next.AskedAgain? { assert last == next; }
    }
  }

  /** However a run is cut into slices and parked at gates that are then granted, once it is final and
      no gate asked about an already granted call, its answer, step count, transcript or failure is that
      of the uninterrupted run in which the asking gates had permitted, and the usage of its invocations
      adds up to that run's. */
  lemma InterruptionsAreTransparent(env: Env, messages: seq<Message>, step: nat, late: Clock, lates: seq<Clock>)
    requires DistinctGates(env.gates)
    ensures var (first, usage) := Run(env, messages, step, late);
      var (last, rest) := Drive(env, first, lates);
      IsFinal(last) && !last.AskedAgain? ==>
        Run(Permitting(env), messages, step, Never()) == (last, AddUsage(usage, rest))
  {
    RunPlusRest(env, messages, step, late);
    var (first, usage) := Run(env, messages, step, late);
    DrivePlusRest(env, first, lates);
    var (last, rest) := Drive(env, first, lates);
    AddUsageAssociates(usage, rest, Rest(env, last).1);
  }

  /** Where no call is asked about by two gates, a granted call is never asked about again, so every
      final end is the permitted run's. */
  lemma {:induction false} OneAskerNeverAsksAgain(env: Env, end: End, lates: seq<Clock>)
    requires DistinctGates(env.gates) && forall call :: OneAsks(env.gates, call)
    requires WellParked(env, end) && !end.AskedAgain?
    ensures !Drive(env, end, lates).0.AskedAgain?
    decreases |lates|
  {
    if !IsFinal(end) && lates != [] {
      NextPlusRest(env, end, lates[0]);
      match end {
        case Yielded(nextStep, messages) => RunPlusRest(env, messages, nextStep, lates[0]);
        case Waiting(p) => ContinueNeverAsksAgain(env, p, lates[0]);
      }
      OneAskerNeverAsksAgain(env, Next(env, end, lates[0]).0, lates[1..]);
    }
  }

  lemma ContinueNeverAsksAgain(env: Env, p: Parked, late: Clock)
    requires DistinctGates(env.gates) && OneAsks(env.gates, p.call) && WellParked(env, Waiting(p))
    ensures !Continue(env, p, late).0.AskedAgain?
  {
    var a, i := FirstBlock(env.gates, p.call, None), FirstBlock(env.gates, p.call, Some(p.gateId));
    assert env.gates[a].id == p.gateId;
    var r := Governed(env.gates, env.tool, p.call, Some(p.gateId));
    assert !Asks(r);
    GoOnPlusRest(env, r, p, late);
  }

  /** Without gates that ask, slicing alone never changes the run. */
  lemma YieldsAreTransparent(env: Env, messages: seq<Message>, step: nat, late: Clock, lates: seq<Clock>)
    requires DistinctGates(env.gates)
    requires forall g, call :: g in env.gates ==> !g.decide(call).Ask?
    ensures var (first, usage) := Run(env, messages, step, late);
      var (last, rest) := Drive(env, first, lates);
      IsFinal(last) ==> Run(env, messages, step, Never()) == (last, AddUsage(usage, rest))
  {
    InterruptionsAreTransparent(env, messages, step, late, lates);
    RunPlusRest(env, messages, step, late);
    OneAskerNeverAsksAgain(env, Run(env, messages, step, late).0, lates);
    SameWithoutAsking(env, messages, step);
  }

  lemma {:induction false} SameWithoutAsking(env: Env, messages: seq<Message>, step: nat)
    requires forall g, call :: g in env.gates ==> !g.decide(call).Ask?
    ensures Run(Permitting(env), messages, step, Never()) == Run(env, messages, step, Never())
    decreases env.maxSteps - step
  {
    if step < env.maxSteps {
      StepMatches(env, messages, step);
      var (result, usage) := StepOnce(env, messages, step);
      match result
      case Stop(end) =>
        if end.Waiting? {
          var i := FirstBlock(env.gates, end.parked.call, None);
          assert env.gates[i] in env.gates;
        }
      case Go(messages') => SameWithoutAsking(env, messages', step + 1);
    }
  }

  // ── Progress ──────────────────────────────────────────────────────────────────────────────

  /** A yield parks strictly later than its slice began, and before the last step. */
  lemma {:induction false} InvocationsAdvance(env: Env, messages: seq<Message>, step: nat, late: Clock)
    ensures var end := Run(env, messages, step, late).0;
      && (end.Yielded? ==> step < end.nextStep < env.maxSteps)
      && (end.Waiting? ==> step <= end.parked.step < env.maxSteps)
    decreases env.maxSteps - step
  {
    if step < env.maxSteps {
      StepMatches(env, messages, step);
      match StepOnce(env, messages, step).0
      case Stop(_) =>
      case Go(messages') => InvocationsAdvance(env, messages', step + 1, late);
    }
  }

  /** How many more invocations an end can need. */
  function Left(env: Env, end: End): nat {
    match end
    case Yielded(nextStep, _) => if nextStep < env.maxSteps then 2 * (env.maxSteps - nextStep) + 1 else 1
    case Waiting(p) => if p.step < env.maxSteps then 2 * (env.maxSteps - p.step) else 1
    case _ => 0
  }

  lemma NextLeavesLess(env: Env, end: End, late: Clock)
    requires !IsFinal(end)
    ensures Left(env, Next(env, end, late).0) < Left(env, end)
  {
    match end
    case Yielded(nextStep, messages) => InvocationsAdvance(env, messages, nextStep, late);
    case Waiting(p) =>
      match Governed(env.gates, env.tool, p.call, Some(p.gateId))
      case Thrown(_) =>
      case Returned(outcome) =>
        InvocationsAdvance(env, WithResult(env, p.messages, p.callId, p.call.name, outcome), p.step + 1, late);
  }

  /** A run becomes final within that many invocations, whatever the clocks say. */
  lemma {:induction false} DriveEnds(env: Env, end: End, lates: seq<Clock>)
    requires |lates| >= Left(env, end)
    ensures IsFinal(Drive(env, end, lates).0)
    decreases |lates|
  {
    if !IsFinal(end) {
      NextLeavesLess(env, end, lates[0]);
      DriveEnds(env, Next(env, end, lates[0]).0, lates[1..]);
    }
  }
}
