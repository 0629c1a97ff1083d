/**
 The model loop as the runtime carries it out: a transcript that grows in place, a per-run state that
 records the call being governed, and checkpoints written at a yield and consumed by the slice that
 resumes it. Each method is proved to compute what GovernedLoop.dfy defines.
 */
module RuntimeLoop {
  import opened Options
  import opened Governance
  import opened GovernedLoop
  import D = DurableStores

  /** The loop state an approval record is built from while its call is being governed. */
  class RunState {
    var currentMessages: seq<Message>
    var currentStep: nat
    var currentToolCallId: string
    var currentCall: ToolCall

    constructor ()
    {
      currentMessages, currentStep, currentToolCallId, currentCall := [], 0, "", ToolCall("", "");
    }

    /** The resume state an approval keeps of the call under way. */
    function Metadata(gateId: string): Parked
      reads this
    {
      Parked(gateId, currentCall, currentMessages, currentStep, currentToolCallId)
    }
  }

  /** The resume state a yield keeps. */
  datatype YieldState = YieldState(nextStep: nat, messages: seq<Message>)

  /** The checkpoint rows after an invocation ended: a yield is kept, unconsumed, under `id`. */
  function Persisted(rows: map<string, D.Checkpoint<YieldState>>, id: string, end: End)
    : map<string, D.Checkpoint<YieldState>>
  {
    if end.Yielded? then rows[id := D.Checkpoint(false, YieldState(end.nextStep, end.messages))] else rows
  }

  class Runtime {
    const env: Env
    const checkpoints: D.RunCheckpointStore<YieldState>

    constructor (env: Env, checkpoints: D.RunCheckpointStore<YieldState>)
      ensures this.env == env && this.checkpoints == checkpoints
    {
      this.env, this.checkpoints := env, checkpoints;
    }

    /** One governed tool call of the loop: the state is set before the gates are asked, so a gate that
        asks leaves exactly what the approval must keep. */
    method GovernCall(call: Call, messages: seq<Message>, step: nat, state: RunState) returns (result: StepResult)
      modifies state
      ensures result == AfterReply(env, messages, step, Reply([], [call], "", NO_USAGE))
      ensures result.Stop? && result.end.Waiting? ==>
        state.Metadata(result.end.parked.gateId) == result.end.parked
    {
      var governable := Governable(env, call);
      state.currentMessages, state.currentStep := messages, step;
      state.currentToolCallId, state.currentCall := call.id, governable;
      var governed := Governed(env.gates, env.tool, governable, None);
      match governed {
        case Thrown(error) => return Stop(Failed(error));
        case Returned(NeedsApproval(gateId, _)) => return Stop(Waiting(state.Metadata(gateId)));
        case Returned(outcome) => return Go(WithResult(env, messages, call.id, call.name, outcome));
      }
    }

    /** The step loop of one invocation. */
    method RunLoop(initial: seq<Message>, startStep: nat, late: Clock, state: RunState)
      returns (end: End, usage: Option<Usage>)
      modifies state
      ensures (end, usage) == Run(env, initial, startStep, late)
      ensures end.Waiting? ==> state.Metadata(end.parked.gateId) == end.parked
    {
      var messages, step := initial, startStep;
      usage := None;
      while step < env.maxSteps
        invariant startStep <= step && (step <= env.maxSteps || step == startStep)
        invariant var (last, rest) := Run(env, messages, step, late);
          Run(env, initial, startStep, late) == (last, AddUsage(usage, rest))
        decreases env.maxSteps - step
      {
        ghost var (last, rest) := Run(env, messages, step, late);
        var run := env.model(messages);
        if run.ModelFailed? { return Failed(run.error), usage; }
        var reply := run.reply;
        var before := usage;
        usage := AddUsage(before, Some(reply.usage));
        messages := messages + reply.messages;
        if |reply.calls| == 0 { return Answered(reply.text, step + 1, messages), usage; }
        if |reply.calls| > 1 { return Failed(TOO_MANY_CALLS), usage; }
        var result := GovernCall(reply.calls[0], messages, step, state);
        if result.Stop? { return result.end, usage; }
        messages := result.messages;
        if step + 1 < env.maxSteps && late(step) { return Yielded(step + 1, messages), usage; }
        AddUsageAssociates(before, Some(reply.usage), Run(env, messages, step + 1, late).1);
        step := step + 1;
      }
      return Exceeded(messages), usage;
    }

    /** An invocation whose yield is persisted under the fresh id `newId`. */
    method Invoke(initial: seq<Message>, startStep: nat, late: Clock, newId: string)
      returns (end: End, usage: Option<Usage>)
      requires newId !in checkpoints.rows
      modifies checkpoints
      ensures (end, usage) == Run(env, initial, startStep, late)
      ensures checkpoints.rows == Persisted(old(checkpoints.rows), newId, end)
    {
      var state := new RunState();
      end, usage := RunLoop(initial, startStep, late, state);
      if end.Yielded? { checkpoints.Create(newId, YieldState(end.nextStep, end.messages)); }
    }

    /** `resumeRun`: the checkpoint is consumed, and only the caller that consumed it goes on. */
    method ResumeRun(id: string, late: Clock, newId: string) returns (end: Option<End>, usage: Option<Usage>)
      requires newId !in checkpoints.rows
      modifies checkpoints
      ensures var was := old(checkpoints.rows);
        if id in was && !was[id].consumed then
          && end.Some?
          && (end.value, usage) == Next(env, Yielded(was[id].metadata.nextStep, was[id].metadata.messages), late)
          && checkpoints.rows == Persisted(was[id := was[id].(consumed := true)], newId, end.value)
        else end.None? && checkpoints.rows == was
    {
      var metadata := checkpoints.Consume(id);
      if metadata.None? { return None, None; }
      var last;
      last, usage := Invoke(metadata.value.messages, metadata.value.nextStep, late, newId);
      end := Some(last);
    }

    /** `continueRun` on a granted approval. */
    method ContinueRun(p: Parked, late: Clock, newId: string) returns (end: End, usage: Option<Usage>)
      requires newId !in checkpoints.rows
      modifies checkpoints
      ensures (end, usage) == Continue(env, p, late)
      ensures checkpoints.rows == Persisted(old(checkpoints.rows), newId, end)
    {
      var governed := Governed(env.gates, env.tool, p.call, Some(p.gateId));
      if governed.Thrown? { return Failed(governed.error), None; }
      if governed.outcome.NeedsApproval? { return AskedAgain(governed.outcome.gateId), None; }
      var messages := WithResult(env, p.messages, p.callId, p.call.name, governed.outcome);
      end, usage := Invoke(messages, p.step + 1, late, newId);
    }
  }

  const NO_USAGE := Usage(None, None, None, None, None, None, None, None)
}
