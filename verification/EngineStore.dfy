/**
 The engine store and its worker as objects that change their tables in place. Every method is
 proved to take exactly the step that EngineModel.dfy defines, so what EngineLeases.dfy,
 EngineFencing.dfy and EngineRuns.dfy prove about steps holds of the tables these methods write.
 */
module EngineStore {
  import opened Options
  import opened EngineModel

  // ── The reap loop, one lease at a time ────────────────────────────────────────────────────

  /** One turn of the reap loop after the leases in `done`: lease `l` is consumed and its task, if it
      still holds `l`, is let go. */
  function ReapOne(s: State, l: Id): State
    requires l in s.leases
  {
    var t := s.leases[l].taskId;
    var s1 := s.(leases := s.leases - {l});
    if t !in s.tasks || !HeldByLease(s, t, l) then s1
    else
      var task := AfterLoss(s.tasks[t], s.now);
      var s2 := s1.(tasks := s.tasks[t := task]);
      if task.status == Dead then SetRun(s2, task.runId, Failed) else s2
  }

  lemma ReapOneTasks(s: State, done: set<Id>, l: Id)
    requires l in s.leases && l !in done
    ensures ReapOne(TakeLeases(s, done), l).tasks == TakeLeases(s, done + {l}).tasks
  {
    var r, s2 := ReapOne(TakeLeases(s, done), l), TakeLeases(s, done + {l});
    var t := s.leases[l].taskId;
    forall u | u in s.tasks ensures r.tasks[u] == s2.tasks[u] {
      assert Holds(s, u, done + {l}) <==> Holds(s, u, done) || (u == t && HeldByLease(s, t, l));
    }
  }

  lemma ReapOneRuns(s: State, done: set<Id>, l: Id)
    requires l in s.leases && l !in done
    ensures ReapOne(TakeLeases(s, done), l).runs == TakeLeases(s, done + {l}).runs
  {
    var s1 := TakeLeases(s, done);
    var t := s.leases[l].taskId;
    var now := t in s.tasks && HeldByLease(s, t, l) && AfterLoss(s.tasks[t], s.now).status == Dead;
    forall r ensures RunLosesTask(s, r, done + {l}) <==> RunLosesTask(s, r, done) || (now && s.tasks[t].runId == r) {
      forall u | u in s.tasks
        ensures Holds(s, u, done + {l}) <==> Holds(s, u, done) || (u == t && HeldByLease(s, t, l)) {}
    }
    if t in s.tasks && HeldByLease(s, t, l) { assert s1.tasks[t] == s.tasks[t]; }
  }

  lemma ReapOneTakes(s: State, done: set<Id>, l: Id)
    requires l in s.leases && l !in done
    ensures var s1 := TakeLeases(s, done); l in s1.leases && ReapOne(s1, l) == TakeLeases(s, done + {l})
  {
    assert ReapOne(TakeLeases(s, done), l).leases == TakeLeases(s, done + {l}).leases;
    ReapOneTasks(s, done, l);
    ReapOneRuns(s, done, l);
  }

  // ── Inserting into the answer of the candidate query ──────────────────────────────────────

  function InsertByDue(cs: seq<Candidate>, c: Candidate): (r: seq<Candidate>)
    ensures multiset(r) == multiset(cs) + multiset{c}
    ensures |r| == |cs| + 1
  {
    if cs == [] || c.dueAt < cs[0].dueAt then [c] + cs
    else
      assert cs == [cs[0]] + cs[1..];
      [cs[0]] + InsertByDue(cs[1..], c)
  }

  lemma InsertByDueMembers(cs: seq<Candidate>, c: Candidate, x: Candidate)
    ensures x in InsertByDue(cs, c) <==> x in cs || x == c
  {}

  lemma {:induction false} InsertByDueSorted(cs: seq<Candidate>, c: Candidate)
    requires SortedByDue(cs)
    ensures SortedByDue(InsertByDue(cs, c))
  {
    var r := InsertByDue(cs, c);
    if cs != [] && c.dueAt >= cs[0].dueAt {
      InsertByDueSorted(cs[1..], c);
      forall j | 0 < j < |r| ensures r[0].dueAt <= r[j].dueAt {
        InsertByDueMembers(cs[1..], c, r[j]);
        assert r[j] in r[1..];
      }
    }
  }

  lemma {:induction false} InsertByDueDistinct(cs: seq<Candidate>, c: Candidate)
    requires DistinctIds(cs) && forall x | x in cs :: x.id != c.id
    ensures DistinctIds(InsertByDue(cs, c))
  {
    var r := InsertByDue(cs, c);
    if cs != [] && c.dueAt >= cs[0].dueAt {
      InsertByDueDistinct(cs[1..], c);
      forall j | 0 < j < |r| ensures r[0].id != r[j].id {
        InsertByDueMembers(cs[1..], c, r[j]);
        assert r[j] in r[1..];
      }
    }
  }

  /** The leases in `taken` whose task row exists. */
  function Reaped(s: State, taken: set<Id>): set<Id> {
    set l | l in taken && l in s.leases && s.leases[l].taskId in s.tasks
  }

  lemma ReapedGrows(s: State, done: set<Id>, l: Id)
    requires l in s.leases && l !in done
    ensures |Reaped(s, done + {l})| == |Reaped(s, done)| + (if s.leases[l].taskId in s.tasks then 1 else 0)
  {
    assert Reaped(s, done + {l}) == Reaped(s, done) + (if s.leases[l].taskId in s.tasks then {l} else {});
  }

  lemma ReapTurn(s: State, expired: set<Id>, rest: set<Id>, l: Id)
    requires rest <= expired == ExpiredLeases(s) && l in rest
    ensures var s1 := TakeLeases(s, expired - rest);
      && l in s1.leases && s1.leases[l] == s.leases[l]
      && s1.tasks.Keys == s.tasks.Keys
      && ReapOne(s1, l) == TakeLeases(s, expired - (rest - {l}))
    ensures |Reaped(s, expired - (rest - {l}))|
         == |Reaped(s, expired - rest)| + (if s.leases[l].taskId in s.tasks then 1 else 0)
  {
    assert (expired - rest) + {l} == expired - (rest - {l});
    ReapOneTakes(s, expired - rest, l);
    ReapedGrows(s, expired - rest, l);
  }

  class SqlEngineStore {
    /** What `now` answers. Time passes between calls, not in them. */
    var clock: int
    var nextId: Id
    var runs: map<RunId, RunStatus>
    var tasks: map<Id, Task>
    var leases: map<Id, Lease>
    var events: seq<LoggedEvent>

    /** The tables, as the value the model steps on. */
    function Tables(): State
      reads this
    {
      State(clock, nextId, runs, tasks, leases, events)
    }

    constructor (now: int)
      ensures Tables() == Init(now)
    {
      clock, nextId, runs, tasks, leases, events := now, 0, map[], map[], map[], [];
    }

    method UpdateRun(r: RunId, status: RunStatus)
      modifies this`runs
      ensures Tables() == SetRun(old(Tables()), r, status)
    {
      if r in runs { runs := runs[r := status]; }
    }

    method AppendEvent(r: RunId, e: Event)
      modifies this`events
      ensures Tables() == Log(old(Tables()), r, e)
    {
      events := events + [LoggedEvent(r, e)];
    }

    method EnqueueTask(r: RunId, kind: TaskKind, dueAt: int, maxAttempts: int, retryDelayMs: int) returns (id: Id)
      modifies this`tasks, this`nextId
      ensures id == old(nextId)
      ensures Tables() == Enqueue(old(Tables()), r, kind, dueAt, maxAttempts, retryDelayMs)
    {
      id := nextId;
      nextId := nextId + 1;
      tasks := tasks[id := NewTask(r, kind, dueAt, maxAttempts, retryDelayMs)];
    }

    /** One turn of the reap loop: consume the lease, then let go the task that still holds it. */
    method ReapLease(l: Id) returns (found: bool)
      requires l in leases
      modifies this`tasks, this`leases, this`runs
      ensures Tables() == ReapOne(old(Tables()), l)
      ensures found <==> old(leases)[l].taskId in old(tasks)
    {
      var lease := leases[l];
      leases := leases - {l};
      found := lease.taskId in tasks;
      if found {
        var task := tasks[lease.taskId];
        if task.status == Leased && task.leaseId == Some(l) {
          tasks := tasks[lease.taskId := AfterLoss(task, clock)];
          if task.attempt >= task.maxAttempts { UpdateRun(task.runId, Failed); }
        }
      }
    }

    /** Takes every expired lease away; the count leaves out leases whose task row is missing. */
    method ReapExpiredLeases() returns (count: nat)
      modifies this`tasks, this`leases, this`runs
      ensures Tables() == Reap(old(Tables()))
      ensures count == |Reaped(old(Tables()), ExpiredLeases(old(Tables())))|
    {
      ghost var was := Tables();
      var expired := ExpiredLeases(Tables());
      var rest := expired;
      count := 0;
      TakeNothing(was);
      while rest != {}
        invariant rest <= expired == ExpiredLeases(was)
        invariant Tables() == TakeLeases(was, expired - rest)
        invariant count == |Reaped(was, expired - rest)|
      {
        var l :| l in rest;
        ReapTurn(was, expired, rest, l);
        rest := rest - {l};
        var found := ReapLease(l);
        if found { count := count + 1; }
      }
      assert expired - rest == expired;
    }

    /** The candidate query: pending due rows by `dueAt`, ties in any order. */
    method FindDue(limit: nat) returns (cs: seq<Candidate>)
      ensures IsDueList(Tables(), limit, cs)
    {
      var rest := tasks.Keys;
      cs := [];
      while rest != {}
        invariant rest <= tasks.Keys
        invariant forall c | c in cs :: c.id !in rest && IsDue(Tables(), c.id) && c == Snapshot(Tables(), c.id)
        invariant forall t | t in tasks && t !in rest && IsDue(Tables(), t) :: Snapshot(Tables(), t) in cs
        invariant SortedByDue(cs) && DistinctIds(cs)
        decreases |rest|
      {
        var t :| t in rest;
        rest := rest - {t};
        if tasks[t].status == Pending && tasks[t].dueAt <= clock {
          var c := Candidate(t, tasks[t].runId, tasks[t].dueAt, tasks[t].attempt, tasks[t].maxAttempts);
          forall x { InsertByDueMembers(cs, c, x); }
          InsertByDueSorted(cs, c);
          InsertByDueDistinct(cs, c);
          cs := InsertByDue(cs, c);
        }
      }
      if |cs| > limit {
        Truncated(Tables(), limit, cs);
        cs := cs[..limit];
      }
    }

    /** One turn of the claim loop. The row may have moved on since the candidate was read; then the
        lease just created is deleted again. */
    method TryCandidate(c: Candidate, at: int, worker: string, ttl: int) returns (claim: Option<Claim>)
      modifies this`nextId, this`tasks, this`leases, this`runs
      ensures (Tables(), claim) == TryClaim(old(Tables()), c, at, worker, ttl)
    {
      if c.attempt >= c.maxAttempts {
        if c.id in tasks && tasks[c.id].status == Pending {
          tasks := tasks[c.id := tasks[c.id].(status := Dead)];
        }
        UpdateRun(c.runId, Failed);
        return None;
      }
      var leaseId, token := nextId, nextId + 1;
      nextId := nextId + 2;
      var expiresAt := at + ttl;
      leases := leases[leaseId := Lease(c.id, worker, HashText(token), expiresAt, at)];
      if c.id in tasks && tasks[c.id].status == Pending {
        tasks := tasks[c.id := tasks[c.id].(status := Leased, leaseId := Some(leaseId), workerId := Some(worker),
                                            leasedUntil := Some(expiresAt), attempt := c.attempt + 1)];
        UpdateRun(tasks[c.id].runId, Running);
        return Some(Claim(c.id, leaseId, token, expiresAt));
      }
      leases := leases - {leaseId};
      assert leases == old(leases) - {leaseId};
      return None;
    }

    /** Reap, query, then candidates in order until one is taken. */
    method ClaimDueTask(worker: string, ttl: int, limit: nat) returns (claim: Option<Claim>, ghost cs: seq<Candidate>)
      modifies this`nextId, this`tasks, this`leases, this`runs
      ensures IsDueList(Reap(old(Tables())), limit, cs)
      ensures (Tables(), claim) == ClaimLoop(Reap(old(Tables())), cs, old(clock), worker, ttl)
    {
      var _ := ReapExpiredLeases();
      var ts := clock;
      var candidates := FindDue(limit);
      cs := candidates;
      ghost var s := Tables();
      var i := 0;
      while i < |candidates|
        invariant 0 <= i <= |candidates|
        invariant ClaimLoop(s, cs, ts, worker, ttl) == ClaimLoop(Tables(), candidates[i..], ts, worker, ttl)
      {
        claim := TryCandidate(candidates[i], ts, worker, ttl);
        if claim.Some? { return; }
        assert candidates[i..][1..] == candidates[i + 1..];
        i := i + 1;
      }
      claim := None;
    }

    method HeartbeatLease(l: Id, token: Id, ttl: int) returns (ok: bool)
      modifies this`leases, this`tasks
      ensures ok <==> LeaseOpens(old(Tables()), l, token)
      ensures Tables() == Heartbeat(old(Tables()), l, token, ttl)
    {
      if l !in leases { return false; }
      var lease := leases[l];
      if lease.expiresAt <= clock || lease.tokenHash != HashText(token) { return false; }
      var expiresAt := clock + ttl;
      leases := leases[l := lease.(expiresAt := expiresAt, lastHeartbeatAt := clock)];
      var t := lease.taskId;
      if t in tasks && tasks[t].status == Leased && tasks[t].leaseId == Some(l) &&
         tasks[t].workerId == Some(lease.workerId) {
        tasks := tasks[t := tasks[t].(leasedUntil := Some(expiresAt))];
      }
      return true;
    }

    method ValidateLease(t: Id, token: Id) returns (l: Option<Id>)
      ensures l.Some? <==> ValidLease(Tables(), t, token)
      ensures l.Some? ==> tasks[t].leaseId == l
    {
      if t !in tasks || tasks[t].leaseId.None? { return None; }
      var id := tasks[t].leaseId.value;
      if id !in leases { return None; }
      var lease := leases[id];
      if lease.taskId != t || lease.expiresAt <= clock || lease.tokenHash != HashText(token) { return None; }
      return Some(id);
    }

    method CompleteTask(t: Id, token: Id) returns (done: bool)
      modifies this`leases, this`tasks
      ensures done <==> CompleteSucceeds(old(Tables()), t, token)
      ensures Tables() == EngineModel.CompleteTask(old(Tables()), t, token)
    {
      var l := ValidateLease(t, token);
      if l.None? || tasks[t].status != Leased { return false; }
      tasks := tasks[t := tasks[t].(status := Done)];
      leases := leases - {l.value};
      return true;
    }

    method FailTask(t: Id, token: Id) returns (failed: bool)
      modifies this`leases, this`tasks
      ensures failed <==> FailSucceeds(old(Tables()), t, token)
      ensures Tables() == EngineModel.FailTask(old(Tables()), t, token)
    {
      var l := ValidateLease(t, token);
      if l.None? { return false; }
      failed := tasks[t].status == Leased;
      if failed { tasks := tasks[t := AfterLoss(tasks[t], clock)]; }
      leases := leases - {l.value};
    }

    /** The engine handle's `startRun` and `continueRun`. */
    method StartRun(r: RunId, kind: TaskKind) returns (ok: bool)
      modifies this`runs, this`tasks, this`nextId
      ensures ok <==> r !in old(runs)
      ensures Tables() == EngineModel.StartRun(old(Tables()), r, kind)
    {
      if r in runs { return false; }
      runs := runs[r := Queued];
      var _ := EnqueueTask(r, kind, clock, 1, DEFAULT_RETRY_DELAY_MS);
      return true;
    }
  }

  lemma TakeNothing(s: State)
    ensures TakeLeases(s, {}) == s
  {}

  lemma Truncated(s: State, limit: nat, cs: seq<Candidate>)
    requires limit < |cs| && SortedByDue(cs) && DistinctIds(cs)
    requires forall c | c in cs :: IsDue(s, c.id) && c == Snapshot(s, c.id)
    requires forall t | t in s.tasks && IsDue(s, t) :: Snapshot(s, t) in cs
    ensures IsDueList(s, limit, cs[..limit])
  {}
}
