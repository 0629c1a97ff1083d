/**
 The audit log's hash chain and its verifier. The verifier collects every problem; it finds none exactly
 when the log is chained and every anchor agrees with it. Every appended log is chained, and with a
 collision-free hash a log that verifies against one anchored entry of a genuine log is that log up to
 and including the entry.
 */
module AuditChain {
  import opened Options

  /** The validated fields of a record, as the text that is hashed with its place in the chain. */
  datatype Snapshot = Snapshot(body: string, seqNo: int, prevHash: string)

  datatype Entry = Entry(snapshot: Snapshot, hash: string)

  type Sha = Snapshot -> string

  ghost predicate CollisionFree(sha: Sha) { forall a, b :: sha(a) == sha(b) ==> a == b }

  const GENESIS := "genesis"

  // ── Appending ─────────────────────────────────────────────────────────────────────────────

  function LastHash(log: seq<Entry>): string { if log == [] then GENESIS else log[|log| - 1].hash }

  /** Every record is in its place, names the hash before it and carries the hash of its own content. */
  predicate Chained(sha: Sha, log: seq<Entry>) {
    forall i | 0 <= i < |log| :: Fits(sha, log, i)
  }

  predicate Fits(sha: Sha, log: seq<Entry>, i: nat)
    requires i < |log|
  {
    && log[i].snapshot.seqNo == i
    && log[i].snapshot.prevHash == LastHash(log[..i])
    && log[i].hash == sha(log[i].snapshot)
  }

  class MemoryAudit {
    const sha: Sha
    var log: seq<Entry>

    constructor (sha: Sha)
      ensures this.sha == sha && log == []
    {
      this.sha, log := sha, [];
    }

    /** The log only grows, and stays chained. */
    method Append(body: string) returns (entry: Entry)
      requires Chained(sha, log)
      modifies this
      ensures log == old(log) + [entry] && entry.snapshot.body == body
      ensures Chained(sha, log)
    {
      var prevHash := if |log| > 0 then log[|log| - 1].hash else GENESIS;
      var snapshot := Snapshot(body, |log|, prevHash);
      entry := Entry(snapshot, sha(snapshot));
      ghost var was := log;
      log := log + [entry];
      forall i | 0 <= i < |log| ensures Fits(sha, log, i) {
        if i < |was| { assert Fits(sha, was, i) && log[..i] == was[..i]; } else { assert log[..i] == was; }
      }
    }
  }

  // ── Verifying ─────────────────────────────────────────────────────────────────────────────

  /** A pinned head, or a row that is not one. */
  datatype Anchor = Head(seqNo: int, hash: string) | Invalid(reason: string)

  datatype Problem =
    | BrokenLink(seqNo: int, expectedPrev: string, actualPrev: string)
    | HashMismatch(seqNo: int, expected: string, actual: string)
    | SeqGap(seqNo: int, expectedSeq: int, actualSeq: int)
    | AnchorInvalid(reason: string)
    | AnchorMissing(seqNo: int, anchored: string)
    | AnchorMismatch(seqNo: int, anchored: string, present: string)

  function EntryProblems(sha: Sha, e: Entry, index: nat, expectedPrev: string): seq<Problem> {
    var s := e.snapshot;
    (if s.prevHash != expectedPrev then [BrokenLink(s.seqNo, expectedPrev, s.prevHash)] else [])
    + (if sha(s) != e.hash then [HashMismatch(s.seqNo, sha(s), e.hash)] else [])
    + (if s.seqNo != index then [SeqGap(s.seqNo, index, s.seqNo)] else [])
  }

  function LogProblems(sha: Sha, entries: seq<Entry>): seq<Problem> {
    if entries == [] then []
    else
      var n := |entries| - 1;
      LogProblems(sha, entries[..n]) + EntryProblems(sha, entries[n], n, LastHash(entries[..n]))
  }

  /** The hash of the last entry that claims each sequence number. */
  function HashBySeq(entries: seq<Entry>): map<int, string> {
    if entries == [] then map[]
    else
      var e := entries[|entries| - 1];
      HashBySeq(entries[..|entries| - 1])[e.snapshot.seqNo := e.hash]
  }

  function AnchorProblem(hashes: map<int, string>, a: Anchor): seq<Problem> {
    match a
    case Invalid(reason) => [AnchorInvalid(reason)]
    case Head(n, hash) =>
      if n !in hashes then [AnchorMissing(n, hash)]
      else if hashes[n] != hash then [AnchorMismatch(n, hash, hashes[n])]
      else []
  }

  function AnchorProblems(hashes: map<int, string>, anchors: seq<Anchor>): seq<Problem> {
    if anchors == [] then []
    else AnchorProblems(hashes, anchors[..|anchors| - 1]) + AnchorProblem(hashes, anchors[|anchors| - 1])
  }

  /** The three checks of one record. */
  method CheckEntry(sha: Sha, e: Entry, index: nat, expectedPrev: string) returns (found: seq<Problem>)
    ensures found == EntryProblems(sha, e, index, expectedPrev)
  {
    var s := e.snapshot;
    found := [];
    if s.prevHash != expectedPrev { found := found + [BrokenLink(s.seqNo, expectedPrev, s.prevHash)]; }
    var recomputed := sha(s);
    if recomputed != e.hash { found := found + [HashMismatch(s.seqNo, recomputed, e.hash)]; }
    if s.seqNo != index { found := found + [SeqGap(s.seqNo, index, s.seqNo)]; }
  }

  /** The walk over the records, with the hash each sequence number shows. */
  method WalkLog(sha: Sha, entries: seq<Entry>) returns (problems: seq<Problem>, hashBySeq: map<int, string>)
    ensures problems == LogProblems(sha, entries) && hashBySeq == HashBySeq(entries)
  {
    problems, hashBySeq := [], map[];
    var expectedPrevHash := GENESIS;
    var index := 0;
    while index < |entries|
      invariant 0 <= index <= |entries|
      invariant problems == LogProblems(sha, entries[..index]) && hashBySeq == HashBySeq(entries[..index])
      invariant expectedPrevHash == LastHash(entries[..index])
    {
      var entry := entries[index];
      assert entries[..index + 1][..index] == entries[..index];
      var found := CheckEntry(sha, entry, index, expectedPrevHash);
      problems := problems + found;
      hashBySeq := hashBySeq[entry.snapshot.seqNo := entry.hash];
      expectedPrevHash := entry.hash;
      index := index + 1;
    }
    assert entries[..|entries|] == entries;
  }

  /** The check of one anchor against the hashes the log shows. */
  method CheckAnchor(hashBySeq: map<int, string>, a: Anchor) returns (found: seq<Problem>)
    ensures found == AnchorProblem(hashBySeq, a)
  {
    if a.Invalid? { return [AnchorInvalid(a.reason)]; }
    if a.seqNo !in hashBySeq { return [AnchorMissing(a.seqNo, a.hash)]; }
    if hashBySeq[a.seqNo] != a.hash { return [AnchorMismatch(a.seqNo, a.hash, hashBySeq[a.seqNo])]; }
    return [];
  }

  method VerifyAuditChain(sha: Sha, entries: seq<Entry>, anchors: seq<Anchor>) returns (problems: seq<Problem>)
    ensures problems == LogProblems(sha, entries) + AnchorProblems(HashBySeq(entries), anchors)
  {
    var hashBySeq;
    problems, hashBySeq := WalkLog(sha, entries);
    ghost var ofLog := problems;
    var a := 0;
    while a < |anchors|
      invariant 0 <= a <= |anchors|
      invariant problems == ofLog + AnchorProblems(hashBySeq, anchors[..a])
    {
      assert anchors[..a + 1][..a] == anchors[..a];
      var found := CheckAnchor(hashBySeq, anchors[a]);
      problems := problems + found;
      a := a + 1;
    }
    assert anchors[..|anchors|] == anchors;
  }

  // ── What a clean verification means ───────────────────────────────────────────────────────

  lemma {:induction false} NoLogProblemIffChained(sha: Sha, entries: seq<Entry>)
    ensures LogProblems(sha, entries) == [] <==> Chained(sha, entries)
  {
    if entries != [] {
      var n := |entries| - 1;
      NoLogProblemIffChained(sha, entries[..n]);
      ChainedOneMore(sha, entries, n);
      assert EntryProblems(sha, entries[n], n, LastHash(entries[..n])) == [] <==> Fits(sha, entries, n);
    }
  }

  lemma ChainedOneMore(sha: Sha, entries: seq<Entry>, n: nat)
    requires n + 1 == |entries|
    ensures Chained(sha, entries) <==> Chained(sha, entries[..n]) && Fits(sha, entries, n)
  {
    forall i | 0 <= i < n ensures Fits(sha, entries[..n], i) <==> Fits(sha, entries, i) {
      assert entries[..n][..i] == entries[..i];
    }
  }

  lemma {:induction false} HashesOfChain(sha: Sha, entries: seq<Entry>)
    requires Chained(sha, entries)
    ensures forall n :: n in HashBySeq(entries) <==> 0 <= n < |entries|
    ensures forall n | 0 <= n < |entries| :: HashBySeq(entries)[n] == entries[n].hash
  {
    if entries != [] {
      var n := |entries| - 1;
      ChainedOneMore(sha, entries, n);
      HashesOfChain(sha, entries[..n]);
    }
  }

  /** The anchor names an entry of the log and its hash. */
  predicate Agrees(entries: seq<Entry>, a: Anchor) {
    a.Head? && 0 <= a.seqNo < |entries| && entries[a.seqNo].hash == a.hash
  }

  lemma {:induction false} NoAnchorProblem(sha: Sha, entries: seq<Entry>, anchors: seq<Anchor>)
    requires Chained(sha, entries)
    ensures AnchorProblems(HashBySeq(entries), anchors) == [] <==> forall a | a in anchors :: Agrees(entries, a)
  {
    if anchors != [] {
      var n := |anchors| - 1;
      NoAnchorProblem(sha, entries, anchors[..n]);
      HashesOfChain(sha, entries);
      assert anchors == anchors[..n] + [anchors[n]];
      assert AnchorProblem(HashBySeq(entries), anchors[n]) == [] <==> Agrees(entries, anchors[n]);
    }
  }

  predicate Verifies(sha: Sha, entries: seq<Entry>, anchors: seq<Anchor>) {
    LogProblems(sha, entries) + AnchorProblems(HashBySeq(entries), anchors) == []
  }

  /** A log verifies exactly when it is chained and every anchor is a head that it still shows. */
  lemma VerifiesIffChainedAndAnchored(sha: Sha, entries: seq<Entry>, anchors: seq<Anchor>)
    ensures Verifies(sha, entries, anchors) <==> Chained(sha, entries) && forall a | a in anchors :: Agrees(entries, a)
  {
    NoLogProblemIffChained(sha, entries);
    if Chained(sha, entries) { NoAnchorProblem(sha, entries, anchors); }
  }

  // ── Heads and anchors ─────────────────────────────────────────────────────────────────────

  /** The head of a log, as an anchor pins it. */
  function HeadOf(log: seq<Entry>): Option<Anchor> {
    if log == [] then None else Some(Head(log[|log| - 1].snapshot.seqNo, log[|log| - 1].hash))
  }

  /** A log that append built verifies against the heads it had at any earlier time. */
  lemma GenuineLogVerifies(sha: Sha, log: seq<Entry>, anchors: seq<Anchor>)
    requires Chained(sha, log)
    requires forall a | a in anchors :: exists n | 0 <= n <= |log| :: HeadOf(log[..n]) == Some(a)
    ensures Verifies(sha, log, anchors)
  {
    forall a | a in anchors ensures Agrees(log, a) {
      var n :| 0 <= n <= |log| && HeadOf(log[..n]) == Some(a);
      assert Fits(sha, log, n - 1);
    }
    VerifiesIffChainedAndAnchored(sha, log, anchors);
  }

  /** Equal hashes at one place make two chains equal up to there. */
  lemma {:induction false} EqualUpTo(sha: Sha, a: seq<Entry>, b: seq<Entry>, k: nat)
    requires CollisionFree(sha) && Chained(sha, a) && Chained(sha, b)
    requires k < |a| && k < |b| && a[k].hash == b[k].hash
    ensures a[..k + 1] == b[..k + 1]
  {
    assert Fits(sha, a, k) && Fits(sha, b, k);
    assert a[k] == b[k];
    if k > 0 {
      assert a[..k][k - 1] == a[k - 1] && b[..k][k - 1] == b[k - 1];
      EqualUpTo(sha, a, b, k - 1);
      assert a[..k + 1] == a[..k] + [a[k]] && b[..k + 1] == b[..k] + [b[k]];
    }
  }

  /** An anchor taken from a genuine log pins all of its history: any log that verifies against it has
      exactly the genuine entries up to the anchored one. */
  lemma AnchorPinsHistory(sha: Sha, genuine: seq<Entry>, k: nat, entries: seq<Entry>, anchors: seq<Anchor>)
    requires CollisionFree(sha) && Chained(sha, genuine) && k < |genuine|
    requires Head(k, genuine[k].hash) in anchors && Verifies(sha, entries, anchors)
    ensures k < |entries| && entries[..k + 1] == genuine[..k + 1]
  {
    VerifiesIffChainedAndAnchored(sha, entries, anchors);
    assert Agrees(entries, Head(k, genuine[k].hash));
    EqualUpTo(sha, entries, genuine, k);
  }

  /** Without anchors a consistent rewrite goes unseen: from any bodies a chained log can be built. */
  lemma {:induction false} RewriteVerifiesWithoutAnchors(sha: Sha, bodies: seq<string>) returns (log: seq<Entry>)
    ensures |log| == |bodies| && forall i | 0 <= i < |log| :: log[i].snapshot.body == bodies[i]
    ensures Verifies(sha, log, [])
  {
    log := [];
    var i := 0;
    while i < |bodies|
      invariant 0 <= i <= |bodies| && |log| == i && Chained(sha, log)
      invariant forall k | 0 <= k < i :: log[k].snapshot.body == bodies[k]
    {
      var snapshot := Snapshot(bodies[i], i, LastHash(log));
      var longer := log + [Entry(snapshot, sha(snapshot))];
      assert longer[..i] == log;
      ChainedOneMore(sha, longer, i);
      log := longer;
      i := i + 1;
    }
    VerifiesIffChainedAndAnchored(sha, log, []);
  }
}
