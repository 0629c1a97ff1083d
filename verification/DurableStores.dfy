/**
 The durable stores of the runtime as objects over their tables: effects, approvals and run
 checkpoints. Each method is one of euroclaw's compare-and-set operations and is proved to take one
 step of the value models.
 */
module DurableStores {
  import opened Options
  import E = EffectsModel

  class EffectStore {
    var rows: map<E.EffectId, E.Row>
    var nextToken: E.Token

    function Table(): E.State
      reads this
    {
      E.State(rows, nextToken)
    }

    constructor ()
      ensures Table() == E.State(map[], 0)
    {
      rows, nextToken := map[], 0;
    }

    method Get(id: E.EffectId) returns (row: Option<E.Row>)
      ensures row == if id in rows then Some(rows[id]) else None
    {
      return if id in rows then Some(rows[id]) else None;
    }

    method TryCreate(input: E.ClaimInput) returns (result: Option<E.ClaimResult>)
      modifies this
      ensures (Table(), result) == E.Create(old(Table()), input)
    {
      var token := nextToken;
      nextToken := nextToken + 1;
      if input.id in rows { return None; }
      var row := E.FreshRow(input, token);
      rows := rows[input.id := row];
      return Some(E.Claimed(row, token));
    }

    /** The claim over a row read as `seen`: answer from it, or take an expired lease over if it is
        still there to take, or answer from the row as it is now. */
    method ClaimExisting(input: E.ClaimInput, seen: E.Row) returns (result: E.ClaimResult)
      modifies this
      ensures (Table(), result) == E.ClaimExisting(old(Table()), input, seen)
    {
      var token := nextToken;
      nextToken := nextToken + 1;
      if seen.toolName != input.toolName || seen.inputHash != input.inputHash { return E.IdReused; }
      if seen.status == E.Completed { return E.AlreadyCompleted(seen); }
      if seen.status != E.Started { return E.Unavailable(seen); }
      if seen.leaseExpiresAt.None? || seen.leaseExpiresAt.value > input.now { return E.InProgress(seen); }
      if !input.reclaimExpired { return E.Uncertain(seen); }
      if input.id in rows {
        var row := rows[input.id];
        if row.status == E.Started && row.leaseExpiresAt.Some? && row.leaseExpiresAt.value <= input.now {
          row := row.(tokenHash := Some(E.HashToken(token)), leaseExpiresAt := Some(input.now + input.ttl));
          rows := rows[input.id := row];
          return E.Claimed(row, token);
        }
      }
      var latest := Get(input.id);
      if latest.None? { return E.Unavailable(seen); }
      return E.Missed(input, latest.value);
    }

    method Claim(input: E.ClaimInput) returns (result: E.ClaimResult)
      modifies this
      ensures (Table(), result) == E.Claim(old(Table()), input)
    {
      var existing := Get(input.id);
      if existing.Some? {
        result := ClaimExisting(input, existing.value);
      } else {
        var created := TryCreate(input);
        result := created.value;
      }
    }

    method Heartbeat(id: E.EffectId, token: E.Token, now: int, ttl: int) returns (ok: bool)
      modifies this`rows
      ensures ok <==> E.ActiveLease(old(Table()), id, token, now)
      ensures Table() == E.Heartbeat(old(Table()), id, token, now, ttl)
    {
      ok := E.ActiveLease(Table(), id, token, now);
      if ok { rows := rows[id := rows[id].(leaseExpiresAt := Some(now + ttl))]; }
    }

    method Complete(id: E.EffectId, token: E.Token, now: int, output: Option<E.Output>) returns (ok: bool)
      modifies this`rows
      ensures ok <==> E.ActiveLease(old(Table()), id, token, now)
      ensures Table() == E.Complete(old(Table()), id, token, now, output)
    {
      ok := E.ActiveLease(Table(), id, token, now);
      if ok {
        var row := rows[id].(status := E.Completed, tokenHash := None, leaseExpiresAt := None);
        if output.Some? { row := row.(output := output); }
        rows := rows[id := row];
      }
    }

    method Fail(id: E.EffectId, token: E.Token, now: int, error: string) returns (ok: bool)
      modifies this`rows
      ensures ok <==> E.ActiveLease(old(Table()), id, token, now)
      ensures Table() == E.Fail(old(Table()), id, token, now, error)
    {
      ok := E.ActiveLease(Table(), id, token, now);
      if ok {
        rows := rows[id :=
          rows[id].(status := E.Failed, error := Some(error), tokenHash := None, leaseExpiresAt := None)];
      }
    }
  }

  // ── Approvals and checkpoints ─────────────────────────────────────────────────────────────

  datatype ApprovalStatus = Pending | Approved | Denied | Consumed

  datatype Approval = Approval(status: ApprovalStatus, decidedBy: Option<string>, reason: Option<string>,
                               expiresAt: Option<int>, metadata: string)

  datatype ApprovalAct = Grant(approver: string) | Deny(approver: string, reason: Option<string>) | Consume(now: int)

  /** The compare-and-set of each approval method: whether it takes, and the row after it. */
  predicate Takes(a: Approval, act: ApprovalAct) {
    match act
    case Grant(_) => a.status == Pending
    case Deny(_, _) => a.status == Pending
    case Consume(now) => a.status == Approved && (a.expiresAt.Some? ==> a.expiresAt.value >= now)
  }

  function After(a: Approval, act: ApprovalAct): Approval {
    if !Takes(a, act) then a
    else
      match act
      case Grant(approver) => a.(status := Approved, decidedBy := Some(approver))
      case Deny(approver, reason) =>
        a.(status := Denied, decidedBy := Some(approver), reason := if reason.Some? then reason else a.reason)
      case Consume(_) => a.(status := Consumed)
  }

  function AfterAll(a: Approval, acts: seq<ApprovalAct>): Approval
    decreases |acts|
  {
    if acts == [] then a else AfterAll(After(a, acts[0]), acts[1..])
  }

  /** How many of the acts that satisfy `which` take. */
  function Taken(a: Approval, acts: seq<ApprovalAct>, which: ApprovalAct -> bool): nat
    decreases |acts|
  {
    if acts == [] then 0
    else (if which(acts[0]) && Takes(a, acts[0]) then 1 else 0) + Taken(After(a, acts[0]), acts[1..], which)
  }

  lemma {:induction false} NothingTakesAfter(a: Approval, acts: seq<ApprovalAct>, which: ApprovalAct -> bool)
    requires a.status in {Denied, Consumed}
    ensures Taken(a, acts, which) == 0 && AfterAll(a, acts) == a
    decreases |acts|
  {
    if acts != [] { NothingTakesAfter(After(a, acts[0]), acts[1..], which); }
  }

  /** An approval is decided at most once and consumed at most once; it is consumed only if it was
      granted, and its decider and resume metadata never change after the decision. */
  lemma {:induction false} ApprovalSingleUse(a: Approval, acts: seq<ApprovalAct>)
    ensures var consumed := Taken(a, acts, (x: ApprovalAct) => x.Consume?);
      var decided := Taken(a, acts, (x: ApprovalAct) => !x.Consume?);
      && consumed <= 1 && decided <= 1
      && (consumed == 1 ==> AfterAll(a, acts).status == Consumed)
      && (a.status == Pending && consumed == 1 ==> decided == 1)
      && AfterAll(a, acts).metadata == a.metadata
      && (a.status != Pending ==> decided == 0 && AfterAll(a, acts).decidedBy == a.decidedBy)
      && (a.status in {Denied, Consumed} ==> AfterAll(a, acts) == a)
    decreases |acts|
  {
    if acts != [] {
      var b := After(a, acts[0]);
      ApprovalSingleUse(b, acts[1..]);
      if b.status == Consumed { NothingTakesAfter(b, acts[1..], (x: ApprovalAct) => x.Consume?); }
    }
  }

  class ApprovalStore {
    var rows: map<string, Approval>

    constructor ()
      ensures rows == map[]
    {
      rows := map[];
    }

    /** The compare-and-set update behind grant, deny and consume. */
    method Act(id: string, act: ApprovalAct) returns (row: Option<Approval>)
      modifies this
      ensures id !in old(rows) ==> row == None && rows == old(rows)
      ensures id in old(rows) ==>
        && rows == old(rows)[id := After(old(rows)[id], act)]
        && row == (if Takes(old(rows)[id], act) then Some(rows[id]) else None)
    {
      if id !in rows { return None; }
      var a := rows[id];
      match act {
        case Grant(approver) =>
          if a.status != Pending { return None; }
          a := a.(status := Approved, decidedBy := Some(approver));
        case Deny(approver, reason) =>
          if a.status != Pending { return None; }
          a := a.(status := Denied, decidedBy := Some(approver));
          if reason.Some? { a := a.(reason := reason); }
        case Consume(now) =>
          if a.status != Approved { return None; }
          if a.expiresAt.Some? && a.expiresAt.value < now { return None; }
          a := a.(status := Consumed);
      }
      rows := rows[id := a];
      return Some(a);
    }

    /** A new approval is pending; `id` stands for the fresh random id. */
    method Create(id: string, expiresAt: Option<int>, metadata: string)
      requires id !in rows
      modifies this
      ensures rows == old(rows)[id := Approval(Pending, None, None, expiresAt, metadata)]
    {
      rows := rows[id := Approval(Pending, None, None, expiresAt, metadata)];
    }
  }

  datatype Checkpoint<M> = Checkpoint(consumed: bool, metadata: M)

  class RunCheckpointStore<M> {
    var rows: map<string, Checkpoint<M>>

    constructor ()
      ensures rows == map[]
    {
      rows := map[];
    }

    method Create(id: string, metadata: M)
      requires id !in rows
      modifies this
      ensures rows == old(rows)[id := Checkpoint(false, metadata)]
    {
      rows := rows[id := Checkpoint(false, metadata)];
    }

    /** A pending checkpoint is handed out once, with the metadata it was created with. */
    method Consume(id: string) returns (metadata: Option<M>)
      modifies this
      ensures metadata == if id in old(rows) && !old(rows)[id].consumed then Some(old(rows)[id].metadata) else None
      ensures rows == if id in old(rows) then old(rows)[id := old(rows)[id].(consumed := true)] else old(rows)
    {
      if id !in rows || rows[id].consumed { return None; }
      rows := rows[id := rows[id].(consumed := true)];
      return Some(rows[id].metadata);
    }
  }
}
