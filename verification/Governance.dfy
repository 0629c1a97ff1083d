/**
 The governance core: how gates are registered, and the governed pipeline over one tool call.

 Gate handlers are deterministic functions of the call (the turn context is fixed). A handler that
 throws, or returns something that is not a decision, is a verdict of its own.
 */
module Governance {
  import opened Options

  datatype ToolCall = ToolCall(name: string, args: string)

  datatype Verdict = Permit | Deny(reason: string) | Ask(reason: string) | Broken(error: string)

  /** A before-gate, of either list: boundary gates and tool gates differ only in where they stand. */
  datatype Gate = Gate(id: string, isSealed: bool, matches: ToolCall -> bool, decide: ToolCall -> Verdict)

  datatype Outcome =
    | Ok(output: string)
    | Denied(gateId: string, reason: string)
    | NeedsApproval(gateId: string, reason: string)
    | Error(reason: string)

  /** An observer. `throws` tells whether it throws on what it is shown. */
  datatype AfterGate = AfterGate(id: string, isSealed: bool, matches: ToolCall -> bool,
                                 throws: (ToolCall, Outcome) -> bool)

  // ── Registration ──────────────────────────────────────────────────────────────────────────

  /** A registered gate, as far as registration looks at it. */
  datatype Entry<G> = Entry(id: string, isSealed: bool, gate: G)

  predicate UniqueIds<G>(list: seq<Entry<G>>) {
    forall i, j | 0 <= i < j < |list| :: list[i].id != list[j].id
  }

  /** The sealed gates come first. */
  predicate SealedFirst<G>(list: seq<Entry<G>>) {
    forall i, j | 0 <= i < j < |list| :: list[j].isSealed ==> list[i].isSealed
  }

  function FirstUnsealed<G>(list: seq<Entry<G>>): (i: nat)
    ensures i <= |list|
  {
    if list == [] || !list[0].isSealed then 0 else 1 + FirstUnsealed(list[1..])
  }

  /** The index of the gate with this id, or the length of the list. */
  function IndexOf<G>(list: seq<Entry<G>>, id: string): (i: nat)
    ensures i <= |list|
  {
    if list == [] || list[0].id == id then 0 else 1 + IndexOf(list[1..], id)
  }

  lemma {:induction false} FirstUnsealedFinds<G>(list: seq<Entry<G>>)
    ensures var i := FirstUnsealed(list);
      (forall k | 0 <= k < i :: list[k].isSealed) && (i < |list| ==> !list[i].isSealed)
  {
    if list != [] && list[0].isSealed {
      FirstUnsealedFinds(list[1..]);
      forall k | 0 <= k < FirstUnsealed(list) ensures list[k].isSealed {
        if k > 0 { assert list[k] == list[1..][k - 1]; }
      }
    }
  }

  lemma {:induction false} IndexOfFinds<G>(list: seq<Entry<G>>, id: string)
    ensures var i := IndexOf(list, id);
      (forall k | 0 <= k < i :: list[k].id != id) && (i < |list| ==> list[i].id == id)
  {
    if list != [] && list[0].id != id {
      IndexOfFinds(list[1..], id);
      forall k | 0 <= k < IndexOf(list, id) ensures list[k].id != id {
        if k > 0 { assert list[k] == list[1..][k - 1]; }
      }
    }
  }

  lemma {:induction false} FirstUnsealedIs<G>(list: seq<Entry<G>>, f: nat)
    requires f <= |list| && (forall k | 0 <= k < f :: list[k].isSealed) && (f < |list| ==> !list[f].isSealed)
    ensures FirstUnsealed(list) == f
  {
    if f > 0 { FirstUnsealedIs(list[1..], f - 1); }
  }

  function Without<G>(list: seq<Entry<G>>, id: string): seq<Entry<G>> {
    var i := IndexOf(list, id);
    if i < |list| then Cut(list, i) else list
  }

  /** A gate of this id that must not be redefined is in the list. */
  predicate Locked<G>(list: seq<Entry<G>>, id: string, sealed: set<string>) {
    var i := IndexOf(list, id);
    i < |list| && (id in sealed || list[i].isSealed)
  }

  function Placed<G>(list: seq<Entry<G>>, gate: Entry<G>): seq<Entry<G>> {
    if gate.isSealed
    then Insert(list, FirstUnsealed(list), gate)
    else list + [gate]
  }

  function Added<G>(list: seq<Entry<G>>, gate: Entry<G>): seq<Entry<G>> { Placed(Without(list, gate.id), gate) }

  function SealedPart<G>(list: seq<Entry<G>>): seq<Entry<G>> { list[..FirstUnsealed(list)] }

  function Cut<G>(list: seq<G>, i: nat): seq<G>
    requires i < |list|
  {
    list[..i] + list[i + 1..]
  }

  function Insert<G>(list: seq<G>, i: nat, g: G): seq<G>
    requires i <= |list|
  {
    list[..i] + [g] + list[i..]
  }

  lemma CutKeepsOrder<G>(list: seq<Entry<G>>, i: nat)
    requires i < |list| && UniqueIds(list)
    ensures UniqueIds(Cut(list, i))
    ensures SealedFirst(list) ==> SealedFirst(Cut(list, i))
    ensures forall k | 0 <= k < |Cut(list, i)| :: Cut(list, i)[k].id != list[i].id
  {}

  lemma CutMembers<G>(list: seq<Entry<G>>, i: nat, e: Entry<G>)
    requires i < |list| && e in list && e != list[i]
    ensures e in Cut(list, i)
  {}

  lemma WithoutKeeps<G>(list: seq<Entry<G>>, id: string)
    requires UniqueIds(list) && SealedFirst(list)
    ensures UniqueIds(Without(list, id)) && SealedFirst(Without(list, id))
    ensures forall k | 0 <= k < |Without(list, id)| :: Without(list, id)[k].id != id
  {
    IndexOfFinds(list, id);
    if IndexOf(list, id) < |list| { CutKeepsOrder(list, IndexOf(list, id)); }
  }

  lemma WithoutMembers<G>(list: seq<Entry<G>>, id: string, e: Entry<G>)
    requires e in list && e.id != id
    ensures e in Without(list, id)
  {
    IndexOfFinds(list, id);
    if IndexOf(list, id) < |list| { CutMembers(list, IndexOf(list, id), e); }
  }

  lemma InsertKeepsUnique<G>(list: seq<Entry<G>>, i: nat, gate: Entry<G>)
    requires i <= |list| && UniqueIds(list) && forall k | 0 <= k < |list| :: list[k].id != gate.id
    ensures UniqueIds(Insert(list, i, gate))
  {}

  lemma InsertKeepsSealed<G>(list: seq<Entry<G>>, i: nat, gate: Entry<G>)
    requires i <= |list| && SealedFirst(list)
    requires forall k | 0 <= k < i :: list[k].isSealed
    requires if gate.isSealed then i < |list| ==> !list[i].isSealed else i == |list|
    ensures SealedFirst(Insert(list, i, gate))
  {}

  lemma AppendKeepsSealed<G>(list: seq<Entry<G>>, gate: Entry<G>)
    requires SealedFirst(list) && !gate.isSealed
    ensures SealedFirst(list + [gate])
  {}

  lemma PlacedKeeps<G>(list: seq<Entry<G>>, gate: Entry<G>)
    requires UniqueIds(list) && SealedFirst(list) && forall k | 0 <= k < |list| :: list[k].id != gate.id
    ensures UniqueIds(Placed(list, gate)) && SealedFirst(Placed(list, gate))
  {
    FirstUnsealedFinds(list);
    if gate.isSealed {
      InsertKeepsUnique(list, FirstUnsealed(list), gate);
      InsertKeepsSealed(list, FirstUnsealed(list), gate);
    } else {
      InsertKeepsUnique(list, |list|, gate);
      assert Insert(list, |list|, gate) == list + [gate];
      AppendKeepsSealed(list, gate);
    }
  }

  lemma PlacedMembers<G>(list: seq<Entry<G>>, gate: Entry<G>, e: Entry<G>)
    ensures e in Placed(list, gate) <==> e in list || e == gate
  {}

  lemma PlacedKeepsSealedPart<G>(list: seq<Entry<G>>, gate: Entry<G>)
    ensures SealedPart(list) <= SealedPart(Placed(list, gate))
  {
    FirstUnsealedFinds(list);
    var f, p := FirstUnsealed(list), Placed(list, gate);
    FirstUnsealedFinds(p);
    assert p[..f] == list[..f];
    forall k | 0 <= k < f ensures p[k].isSealed { assert p[k] == p[..f][k]; }
    assert FirstUnsealed(p) >= f;
  }

  lemma WithoutUnsealed<G>(list: seq<Entry<G>>, id: string)
    requires SealedFirst(list)
    requires IndexOf(list, id) < |list| ==> !list[IndexOf(list, id)].isSealed
    ensures SealedPart(Without(list, id)) == SealedPart(list)
  {
    var i, f := IndexOf(list, id), FirstUnsealed(list);
    if i < |list| {
      FirstUnsealedFinds(list);
      var w := Cut(list, i);
      assert f <= i;
      assert w[..f] == list[..f];
      forall k | 0 <= k < f ensures w[k].isSealed { assert w[k] == list[k]; }
      if f < |w| { assert w[f] == list[if f < i then f else f + 1]; }
      FirstUnsealedIs(w, f);
    }
  }

  /** A registration that is not refused keeps ids unique and sealed gates in front, keeps every sealed
      gate where it is, and changes nothing but the gate of that id, which is the new one. */
  lemma AddedKeeps<G>(list: seq<Entry<G>>, gate: Entry<G>, sealed: set<string>)
    requires UniqueIds(list) && SealedFirst(list) && !Locked(list, gate.id, sealed)
    ensures UniqueIds(Added(list, gate)) && SealedFirst(Added(list, gate))
    ensures SealedPart(list) <= SealedPart(Added(list, gate))
    ensures gate in Added(list, gate)
    ensures forall e | e in list && e.id != gate.id :: e in Added(list, gate)
  {
    WithoutKeeps(list, gate.id);
    WithoutUnsealed(list, gate.id);
    PlacedKeeps(Without(list, gate.id), gate);
    PlacedKeepsSealedPart(Without(list, gate.id), gate);
    PlacedMembers(Without(list, gate.id), gate, gate);
    forall e | e in list && e.id != gate.id ensures e in Added(list, gate) {
      WithoutMembers(list, gate.id, e);
      PlacedMembers(Without(list, gate.id), gate, e);
    }
  }

  datatype Kind = Boundary | Tool | After

  /** The three gate lists with the id sets that registration keeps beside them. */
  datatype Registry = Registry(
    boundary: seq<Entry<Gate>>,
    tool: seq<Entry<Gate>>,
    after: seq<Entry<AfterGate>>,
    sealed: set<string>,
    boundaryIds: set<string>,
    toolIds: set<string>)

  datatype Registration = OfGate(kind: Kind, gate: Gate) | OfAfter(observer: AfterGate)

  function GateEntry(g: Gate): Entry<Gate> { Entry(g.id, g.isSealed, g) }

  function AfterEntry(g: AfterGate): Entry<AfterGate> { Entry(g.id, g.isSealed, g) }

  function Seal(sealed: set<string>, id: string, isSealed: bool): set<string> {
    if isSealed then sealed + {id} else sealed
  }

  predicate Refused(r: Registry, x: Registration) {
    match x
    case OfGate(Boundary, g) => g.id in r.toolIds || Locked(r.boundary, g.id, r.sealed)
    case OfGate(_, g) => g.id in r.boundaryIds || Locked(r.tool, g.id, r.sealed)
    case OfAfter(g) => Locked(r.after, g.id, r.sealed)
  }

  function Registered(r: Registry, x: Registration): Registry {
    if Refused(r, x) then r
    else
      match x
      case OfGate(Boundary, g) =>
        r.(boundary := Added(r.boundary, GateEntry(g)), sealed := Seal(r.sealed, g.id, g.isSealed),
           boundaryIds := r.boundaryIds + {g.id})
      case OfGate(_, g) =>
        r.(tool := Added(r.tool, GateEntry(g)), sealed := Seal(r.sealed, g.id, g.isSealed),
           toolIds := r.toolIds + {g.id})
      case OfAfter(g) =>
        r.(after := Added(r.after, AfterEntry(g)), sealed := Seal(r.sealed, g.id, g.isSealed))
  }

  function RegisteredAll(r: Registry, xs: seq<Registration>): Registry
    decreases |xs|
  {
    if xs == [] then r else RegisteredAll(Registered(r, xs[0]), xs[1..])
  }

  ghost predicate RegistryInv(r: Registry) {
    && UniqueIds(r.boundary) && UniqueIds(r.tool) && UniqueIds(r.after)
    && SealedFirst(r.boundary) && SealedFirst(r.tool) && SealedFirst(r.after)
    && (forall e | e in r.boundary :: e.id in r.boundaryIds && e.gate.id == e.id)
    && (forall e | e in r.tool :: e.id in r.toolIds && e.gate.id == e.id)
    && r.boundaryIds !! r.toolIds
  }

  /** Everything sealed stays sealed, in place and in order. */
  ghost predicate SealedKept(r: Registry, r': Registry) {
    && SealedPart(r.boundary) <= SealedPart(r'.boundary)
    && SealedPart(r.tool) <= SealedPart(r'.tool)
    && SealedPart(r.after) <= SealedPart(r'.after)
  }

  lemma AddedMembers<G>(list: seq<Entry<G>>, gate: Entry<G>, e: Entry<G>)
    requires e in Added(list, gate)
    ensures e == gate || e in list
  {
    PlacedMembers(Without(list, gate.id), gate, e);
  }

  lemma RegisteredKeeps(r: Registry, x: Registration)
    requires RegistryInv(r)
    ensures RegistryInv(Registered(r, x)) && SealedKept(r, Registered(r, x))
  {
    if !Refused(r, x) {
      match x
      case OfGate(Boundary, g) =>
        AddedKeeps(r.boundary, GateEntry(g), r.sealed);
        forall e | e in Added(r.boundary, GateEntry(g)) ensures e == GateEntry(g) || e in r.boundary {
          AddedMembers(r.boundary, GateEntry(g), e);
        }
      case OfGate(_, g) =>
        AddedKeeps(r.tool, GateEntry(g), r.sealed);
        forall e | e in Added(r.tool, GateEntry(g)) ensures e == GateEntry(g) || e in r.tool {
          AddedMembers(r.tool, GateEntry(g), e);
        }
      case OfAfter(g) => AddedKeeps(r.after, AfterEntry(g), r.sealed);
    }
  }

  /** After any registrations, refused ones included: unique ids per list, sealed gates first, no id
      both a boundary and a tool gate, and no sealed gate lost, replaced or moved. */
  lemma {:induction false} RegistrationsKeepSeals(r: Registry, xs: seq<Registration>)
    requires RegistryInv(r)
    ensures RegistryInv(RegisteredAll(r, xs)) && SealedKept(r, RegisteredAll(r, xs))
    decreases |xs|
  {
    if xs != [] {
      RegisteredKeeps(r, xs[0]);
      RegistrationsKeepSeals(Registered(r, xs[0]), xs[1..]);
    }
  }

  // ── The governed pipeline ─────────────────────────────────────────────────────────────────

  /** The gate stands in the way of the call: it is not bypassed, matches, and does not permit. */
  predicate Blocks(g: Gate, call: ToolCall, bypass: Option<string>) {
    bypass != Some(g.id) && g.matches(call) && g.decide(call) != Permit
  }

  /** The first gate in the way, or the number of gates. */
  function FirstBlock(gates: seq<Gate>, call: ToolCall, bypass: Option<string>): (i: nat)
    ensures i <= |gates|
    ensures i < |gates| ==> Blocks(gates[i], call, bypass)
  {
    if gates == [] || Blocks(gates[0], call, bypass) then 0 else 1 + FirstBlock(gates[1..], call, bypass)
  }

  lemma {:induction false} FirstBlockFinds(gates: seq<Gate>, call: ToolCall, bypass: Option<string>)
    ensures forall k | 0 <= k < FirstBlock(gates, call, bypass) :: !Blocks(gates[k], call, bypass)
  {
    if gates != [] && !Blocks(gates[0], call, bypass) {
      FirstBlockFinds(gates[1..], call, bypass);
      forall k | 0 <= k < FirstBlock(gates, call, bypass) ensures !Blocks(gates[k], call, bypass) {
        if k > 0 { assert gates[k] == gates[1..][k - 1]; }
      }
    }
  }

  datatype ToolRun = Output(value: string) | Failure(error: string)

  /** What a governed call returns to its caller: an outcome, or an exception. */
  datatype Result = Returned(outcome: Outcome) | Thrown(error: string)

  function Blocked(g: Gate, call: ToolCall): Result
    requires g.decide(call) != Permit
  {
    match g.decide(call)
    case Deny(reason) => Returned(Denied(g.id, reason))
    case Ask(reason) => Returned(NeedsApproval(g.id, reason))
    case Broken(error) => Thrown(error)
  }

  /** The pipeline's result when no observer throws. */
  function Governed(gates: seq<Gate>, tool: ToolCall -> ToolRun, call: ToolCall, bypass: Option<string>): Result {
    var i := FirstBlock(gates, call, bypass);
    if i < |gates| then Blocked(gates[i], call)
    else
      match tool(call)
      case Output(value) => Returned(Ok(value))
      case Failure(error) => Thrown(error)
  }

  /** What the observers are shown. */
  function Observed(result: Result): Outcome {
    match result
    case Returned(outcome) => outcome
    case Thrown(error) => Error(error)
  }

  /** Some observer that matches throws on the outcome. */
  predicate SomeThrows(after: seq<AfterGate>, call: ToolCall, outcome: Outcome) {
    after != [] &&
    ((after[0].matches(call) && after[0].throws(call, outcome)) || SomeThrows(after[1..], call, outcome))
  }

  datatype Trace = ToolRan(call: ToolCall) | Showed(gateId: string, outcome: Outcome)

  /** The observers that see the outcome: those that match, in order, up to one that throws. */
  function Shown(after: seq<AfterGate>, call: ToolCall, outcome: Outcome): seq<Trace> {
    if after == [] then []
    else if !after[0].matches(call) then Shown(after[1..], call, outcome)
    else if after[0].throws(call, outcome) then [Showed(after[0].id, outcome)]
    else [Showed(after[0].id, outcome)] + Shown(after[1..], call, outcome)
  }

  function Watching(after: seq<AfterGate>, call: ToolCall): seq<AfterGate> {
    if after == [] then []
    else (if after[0].matches(call) then [after[0]] else []) + Watching(after[1..], call)
  }

  function ShownToAll(watching: seq<AfterGate>, outcome: Outcome): seq<Trace> {
    seq(|watching|, i requires 0 <= i < |watching| => Showed(watching[i].id, outcome))
  }

  /** How many of the watching observers are reached: all up to the first that throws, and that one. */
  function Reached(watching: seq<AfterGate>, call: ToolCall, outcome: Outcome): (n: nat)
    ensures n <= |watching|
  {
    if watching == [] then 0
    else if watching[0].throws(call, outcome) then 1
    else 1 + Reached(watching[1..], call, outcome)
  }

  lemma {:induction false} ReachedIsFirstThrow(watching: seq<AfterGate>, call: ToolCall, outcome: Outcome)
    ensures var n := Reached(watching, call, outcome);
      && (watching != [] ==> n > 0)
      && (forall i | 0 <= i < n - 1 :: !watching[i].throws(call, outcome))
      && (n < |watching| ==> watching[n - 1].throws(call, outcome))
  {
    if watching != [] && !watching[0].throws(call, outcome) {
      ReachedIsFirstThrow(watching[1..], call, outcome);
      assert forall i | 0 < i < |watching| :: watching[i] == watching[1..][i - 1];
    }
  }

  /** Whatever the observers do, those that see the outcome are the ones that match, once each and in
      order, up to and including the first that throws. */
  lemma {:induction false} ShownUpToFirstThrow(after: seq<AfterGate>, call: ToolCall, outcome: Outcome)
    ensures var watching := Watching(after, call);
      Shown(after, call, outcome) == ShownToAll(watching, outcome)[..Reached(watching, call, outcome)]
  {
    if after != [] {
      var rest := Watching(after[1..], call);
      ShownUpToFirstThrow(after[1..], call, outcome);
      if after[0].matches(call) {
        var watching := [after[0]] + rest;
        assert watching[1..] == rest;
        assert ShownToAll(watching, outcome) == [Showed(after[0].id, outcome)] + ShownToAll(rest, outcome);
      } else {
        assert Watching(after, call) == rest;
      }
    }
  }

  /** Each observer that matches is shown the outcome once, in order, exactly when none of them but the
      last one throws. */
  lemma EachObserverSeesOnce(after: seq<AfterGate>, call: ToolCall, outcome: Outcome)
    ensures var watching := Watching(after, call);
      (Shown(after, call, outcome) == ShownToAll(watching, outcome)) <==>
      (forall i | 0 <= i < |watching| - 1 :: !watching[i].throws(call, outcome))
  {
    var watching := Watching(after, call);
    ShownUpToFirstThrow(after, call, outcome);
    ReachedIsFirstThrow(watching, call, outcome);
    assert |ShownToAll(watching, outcome)| == |watching|;
  }

  /** An observer that throws hides the outcome from every matching one after it. */
  lemma ThrowingObserverHidesOutcome(after: seq<AfterGate>, call: ToolCall, outcome: Outcome, i: nat, j: nat)
    requires i < j < |Watching(after, call)| && Watching(after, call)[i].throws(call, outcome)
    requires forall k | 0 <= k < j :: Watching(after, call)[k].id != Watching(after, call)[j].id
    ensures Showed(Watching(after, call)[j].id, outcome) !in Shown(after, call, outcome)
  {
    var watching := Watching(after, call);
    ShownUpToFirstThrow(after, call, outcome);
    ReachedIsFirstThrow(watching, call, outcome);
    assert Reached(watching, call, outcome) <= i + 1;
  }

  /** The tool runs exactly when every gate that matches, but the bypassed one, permits. */
  lemma ToolRunsIffPermitted(gates: seq<Gate>, tool: ToolCall -> ToolRun, call: ToolCall, bypass: Option<string>)
    ensures FirstBlock(gates, call, bypass) == |gates|
       <==> forall g | g in gates && g.matches(call) && bypass != Some(g.id) :: g.decide(call) == Permit
    ensures Governed(gates, tool, call, bypass).Returned? && Governed(gates, tool, call, bypass).outcome.Ok?
       ==> forall g | g in gates && g.matches(call) && bypass != Some(g.id) :: g.decide(call) == Permit
  {}

  function Bare<G>(list: seq<Entry<G>>): seq<G> { seq(|list|, i requires 0 <= i < |list| => list[i].gate) }

  /** All before-gates in the order they are asked: boundary gates, then tool gates. */
  function BeforeGates(r: Registry): seq<Gate> { Bare(r.boundary) + Bare(r.tool) }

  predicate DistinctGates(gates: seq<Gate>) {
    forall i, j | 0 <= i < j < |gates| :: gates[i].id != gates[j].id
  }

  lemma RegistryGatesAreDistinct(r: Registry)
    requires RegistryInv(r)
    ensures DistinctGates(BeforeGates(r))
  {
    var (n, gates) := (|r.boundary|, BeforeGates(r));
    forall i | 0 <= i < |gates|
      ensures gates[i].id == (if i < n then r.boundary[i].id else r.tool[i - n].id)
      ensures gates[i].id in if i < n then r.boundaryIds else r.toolIds
    {
      if i < n { assert r.boundary[i] in r.boundary; } else { assert r.tool[i - n] in r.tool; }
    }
  }

  /** Whatever was registered, no two of the gates that are asked share an id. */
  lemma RegisteredGatesAreDistinct(r: Registry, xs: seq<Registration>)
    requires RegistryInv(r)
    ensures DistinctGates(BeforeGates(RegisteredAll(r, xs)))
  {
    RegistrationsKeepSeals(r, xs);
    RegistryGatesAreDistinct(RegisteredAll(r, xs));
  }

  class GovernanceCore {
    var registry: Registry
    const tool: ToolCall -> ToolRun
    var trace: seq<Trace>

    /** The audit and approval observers are installed sealed, when there is a sink and a store. */
    constructor (tool: ToolCall -> ToolRun, audit: Option<AfterGate>, approval: Option<AfterGate>)
      requires audit.Some? ==> audit.value.id == "audit" && audit.value.isSealed
      requires approval.Some? ==> approval.value.id == "approval" && approval.value.isSealed
      ensures RegistryInv(registry) && trace == []
      ensures this.tool == tool
      ensures registry.boundary == [] && registry.tool == []
      ensures registry.after == (if audit.Some? then [AfterEntry(audit.value)] else [])
                              + (if approval.Some? then [AfterEntry(approval.value)] else [])
    {
      this.tool := tool;
      this.registry := Registry([], [], (if audit.Some? then [AfterEntry(audit.value)] else [])
                                      + (if approval.Some? then [AfterEntry(approval.value)] else []), {}, {}, {});
      this.trace := [];
    }

    static method Find<G>(list: seq<Entry<G>>, id: string) returns (i: nat)
      ensures i == IndexOf(list, id)
    {
      i := 0;
      while i < |list| && list[i].id != id
        invariant 0 <= i <= |list|
        invariant IndexOf(list, id) == i + IndexOf(list[i..], id)
      {
        assert list[i..][1..] == list[i + 1..];
        i := i + 1;
      }
    }

    static method FindUnsealed<G>(list: seq<Entry<G>>) returns (f: nat)
      ensures f == FirstUnsealed(list)
    {
      f := 0;
      while f < |list| && list[f].isSealed
        invariant 0 <= f <= |list|
        invariant FirstUnsealed(list) == f + FirstUnsealed(list[f..])
      {
        assert list[f..][1..] == list[f + 1..];
        f := f + 1;
      }
    }

    /** `add` on one list: find the gate of that id, refuse if it is sealed, cut it out, and insert the
        new one after the sealed gates or at the end. */
    static method Add<G>(list: seq<Entry<G>>, gate: Entry<G>, sealed: set<string>)
      returns (ok: bool, list': seq<Entry<G>>)
      ensures ok <==> !Locked(list, gate.id, sealed)
      ensures list' == if ok then Added(list, gate) else list
    {
      list' := list;
      var i := Find(list, gate.id);
      if i < |list| {
        if gate.id in sealed || list[i].isSealed { return false, list; }
        list' := Cut(list, i);
      }
      if gate.isSealed {
        var f := FindUnsealed(list');
        list' := Insert(list', f, gate);
      } else {
        list' := list' + [gate];
      }
      return true, list';
    }

    method Register(x: Registration) returns (ok: bool)
      modifies this`registry
      ensures ok <==> !Refused(old(registry), x)
      ensures registry == Registered(old(registry), x)
    {
      match x {
        case OfGate(kind, g) =>
          if kind == Boundary {
            if g.id in registry.toolIds { return false; }
            var list;
            ok, list := Add(registry.boundary, GateEntry(g), registry.sealed);
            if ok {
              registry := registry.(boundary := list, sealed := Seal(registry.sealed, g.id, g.isSealed),
                                    boundaryIds := registry.boundaryIds + {g.id});
            }
          } else {
            if g.id in registry.boundaryIds { return false; }
            var list;
            ok, list := Add(registry.tool, GateEntry(g), registry.sealed);
            if ok {
              registry := registry.(tool := list, sealed := Seal(registry.sealed, g.id, g.isSealed),
                                    toolIds := registry.toolIds + {g.id});
            }
          }
        case OfAfter(g) =>
          var list;
          ok, list := Add(registry.after, AfterEntry(g), registry.sealed);
          if ok { registry := registry.(after := list, sealed := Seal(registry.sealed, g.id, g.isSealed)); }
      }
    }

    function Gates(): seq<Gate>
      reads this`registry
    {
      BeforeGates(registry)
    }

    function Observers(): seq<AfterGate>
      reads this`registry
    {
      Bare(registry.after)
    }

    static method AskGates(gates: seq<Gate>, call: ToolCall, bypass: Option<string>) returns (i: nat)
      ensures i == FirstBlock(gates, call, bypass)
    {
      i := 0;
      while i < |gates| && !Blocks(gates[i], call, bypass)
        invariant 0 <= i <= |gates|
        invariant FirstBlock(gates, call, bypass) == i + FirstBlock(gates[i..], call, bypass)
      {
        assert gates[i..][1..] == gates[i + 1..];
        i := i + 1;
      }
    }

    /** Boundary gates, tool gates, the tool, then the observers, which are shown the outcome whether the
        pipeline returned or threw. Returns none when an observer threw. */
    method RunGoverned(call: ToolCall, bypass: Option<string>) returns (result: Option<Result>)
      modifies this`trace
      ensures var expected := Governed(Gates(), tool, call, bypass);
        && (result.Some? ==> result.value == expected)
        && (result.None? <==> SomeThrows(Observers(), call, Observed(expected)))
        && trace == old(trace)
                  + (if FirstBlock(Gates(), call, bypass) == |Gates()| then [ToolRan(call)] else [])
                  + Shown(Observers(), call, Observed(expected))
    {
      var gates := Gates();
      var i := AskGates(gates, call, bypass);
      var final;
      if i < |gates| {
        final := Blocked(gates[i], call);
      } else {
        trace := trace + [ToolRan(call)];
        var run := tool(call);
        final := match run case Output(value) => Returned(Ok(value)) case Failure(error) => Thrown(error);
      }
      var ok := Show(call, Observed(final));
      return if ok then Some(final) else None;
    }

    method Show(call: ToolCall, outcome: Outcome) returns (ok: bool)
      modifies this`trace
      ensures ok <==> !SomeThrows(Observers(), call, outcome)
      ensures trace == old(trace) + Shown(Observers(), call, outcome)
    {
      var after := Observers();
      var i := 0;
      while i < |after|
        invariant 0 <= i <= |after|
        invariant trace + Shown(after[i..], call, outcome) == old(trace) + Shown(after, call, outcome)
        invariant SomeThrows(after[i..], call, outcome) <==> SomeThrows(after, call, outcome)
      {
        assert after[i..][1..] == after[i + 1..];
        var g := after[i];
        if g.matches(call) {
          trace := trace + [Showed(g.id, outcome)];
          if g.throws(call, outcome) { return false; }
        }
        i := i + 1;
      }
      return true;
    }
  }
}
