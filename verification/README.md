# Verification of euroclaw's durable and privacy core

This project models, in Dafny 4.11, the parts of euroclaw whose correctness is a matter of all runs, all
inputs or all interleavings, and proves what their documentation promises:

- **The leased task engine** (`EngineModel`, `EngineLeases`, `EngineFencing`, `EngineRuns`, `EngineStore`,
  `EngineWorker`): tables of runs, tasks, leases and events changed by any number of workers. The store and
  the worker are classes that change their tables in place; their methods are proved against step functions,
  and the protocol properties are proved about all runs of steps. Clocks are integers, ids and tokens are
  fresh numbers, the token hash is collision-free. Each store method is one step; the claim loop is also
  split into single candidates that may be arbitrarily stale.
- **Effects, approvals and checkpoints** (`EffectsModel`, `DurableStores`, `ApprovedOnce`): compare-and-set
  rows with fencing tokens, the effect claim split between its read and its write, and any number of
  concurrent continuations of one approval.
- **Governance and the governed loop** (`Governance`, `GovernedLoop`, `RuntimeLoop`): sealed gate lists, the
  gate pipeline, and the model loop with its deadline slices and parked approvals. Model, tools, gates and
  redaction are deterministic functions of what they are given.
- **The redactor** (`EditDistance`, `Recovery`, `Placeholders`, `Redaction`, `Redactor`, `StreamRehydrator`,
  `PiiMappings`, `PiiStores`): edit distance and word repair, bounded recovery, span cleaning, minting,
  rehydration, streaming, and the two mapping stores with erasure. The index hash is collision-free, word
  codes are drawn by the caller, case folding (`Strings`) is ASCII.
- **The storage query layer** (`WhereTree`, `SchemaAdapter`): one where tree evaluated in memory, compiled
  to SQL with escaped LIKE patterns, and translated from logical to physical names.
- **Audit and access** (`AuditChain`, `AccessGraph`): a hash chain with anchors, and the levelled entity
  graph under the baseline policies.

Run `dafny verify dfyconfig.toml` to check everything.

## Where the code and its promises part

The model follows the code. Where a promise does not hold of every input, the project proves exactly when
it does, beside a concrete input that shows why:

- A task's claims equal its `attempt` exactly as long as the claim loop works on rows that are still as they
  were read. A row that is claimed and failed in between is taken over with the attempt number read before,
  so it can be claimed more often than its budget says (`CountsThroughoutIffCurrent`,
  `StaleCandidateOverclaims`).
  The number itself stays within the budget whatever is stale (`AttemptsStayWithinBudget`), and the engine's
  own tasks, with a budget of one, are claimed at most once (`EngineTaskClaimedAtMostOnce`).
- A failed run has its `run.failed` event exactly when its worker failed it, and no terminal event exactly
  when the reaper did (`FailedSilentlyIffReaped`, `AbandonedRunFailsSilently`).
- An after-gate that throws hides the outcome from the matching ones behind it, so all of them see it exactly
  when none but the last throws (`EachObserverSeesOnce`, `ThrowingObserverHidesOutcome`).
- The word lists' comment says that a one-letter corruption snaps back. The four-letter prefix is looked up
  first, so a corruption among the first four letters can complete another word's prefix: "darily", one
  letter off "daily", is repaired to "daringly" (`RepairsOneEdit`, `PrefixLookupCanDivert`).
- The mapping tables leave namesakes in other containers alone exactly as long as no where clause built from
  a key hits a key that is not meant, as it never does in full containers (`TablesAreExactIffOnlyOwnHits`). A
  key outside any container hits its namesakes in all of them: erasing it erases them, saving it again
  overwrites the first of them, and a link of one of them keeps it from being linked
  (`ContextlessLinkErasesNamesakes`, `ResaveOverwritesNamesake`, `NamesakeTakesTheLink`).
- The in-memory mapping store empties the erased subject's key set while reading it, so the sets of subjects
  indexed later keep stale keys, and a later erasure can remove a mapping it should not
  (`StoresAgreeIffNoStaleErasure`, `StaleKeyErasesTooMuch`).
- A streamed delta that ends between the two opening braces of a placeholder is emitted too early, unless
  the buffer is held for another reason (`StreamsIffNotHarmful`, `SplitOpeningIsHarmful`).
- The memory and the SQL reading of a clause part on nulls, absent fields and patterns that are not strings,
  and exactly where said (`ClauseAgreesIffNotDivergent`, `DivergentClauses`).
- A query on a JSON field stored as text finds no stored null by null, and finds a stored list by its like,
  which no logical row does (`TextClauseKeptIffNotDiffering`, `NullsAndListsDiffer`).
- `matchWhere` fails loud on an empty group exactly when it reaches it (`ThrowsIffReaches`,
  `SkippedEmptyGroup`).
- An immutable field with an on-update value is written by every update (`ImmutableIffNoOnUpdate`).
- Access node ids join labels with a colon, so labels that hold one can collide (`RuleUnlessCollision`,
  `SeparatorCollides`).
- At most one execution per approval holds for tools without idempotency; a tool whose expired effect lease
  may be taken over can run twice (`ApprovedRunsAtMostOnce`, `ReclaimCanRunTwice`).

## Model

| member | source | states |
|---|---|---|
| `EngineStore.SqlEngineStore.ReapExpiredLeases` | packages/engines/sql/src/store.ts:564-616 | Deletes exactly the expired leases in any order; a task holding one goes back to pending after its delay or dies with its run failed; the count leaves out leases whose task row is missing. |
| `EngineStore.SqlEngineStore.ReapLease` | packages/engines/sql/src/store.ts:572-614 | One consumed lease: its task is let go only if it still holds that very lease. |
| `EngineStore.SqlEngineStore.FindDue` | packages/engines/sql/src/store.ts:402-408 | Returns pending due rows, soonest first, up to the limit, leaving out none that is due sooner than one returned. |
| `EngineStore.SqlEngineStore.TryCandidate` | packages/engines/sql/src/store.ts:409-463 | One candidate: dies when exhausted, else a fresh lease and a compare-and-set on the pending row; a lost race deletes the lease again. |
| `EngineStore.SqlEngineStore.ClaimDueTask` | packages/engines/sql/src/store.ts:400-465 | Reap, query, then candidates in order until one is taken, tied to the claim relation of the model. |
| `EngineStore.SqlEngineStore.HeartbeatLease` | packages/engines/sql/src/store.ts:467-499 | Extends lease and task together exactly when the token opens the live lease; otherwise nothing changes. |
| `EngineStore.SqlEngineStore.ValidateLease` | packages/engines/sql/src/store.ts:315-329 | A lease is returned exactly when the task points to it, it is for the task, unexpired, and the token matches. |
| `EngineStore.SqlEngineStore.CompleteTask` | packages/engines/sql/src/store.ts:501-529 | Completes and frees the lease exactly when the lease is valid and the task leased. |
| `EngineStore.SqlEngineStore.FailTask` | packages/engines/sql/src/store.ts:531-562 | Under a valid lease the task is retried after its delay or dies, and the lease is gone in either case. |
| `EngineStore.SqlEngineStore.StartRun` | packages/engines/sql/src/engine.ts:62-102 | Creates the queued run and its one task together, or nothing when the id is taken. |
| `EngineStore.SqlEngineStore.EnqueueTask` | packages/engines/sql/src/store.ts:373-391 | Creates one pending task under a fresh id. |
| `EngineStore.ReapTurn` | packages/engines/sql/src/store.ts:572-614 | One turn of the reap loop, at any point of it and for any of the remaining leases, advances the whole reap by that lease. |
| `EngineLeases.ApplyKeepsLeaseInv` | packages/engines/sql/src/store.ts:315-616 | Every step keeps leased tasks and lease rows in bijection, with equal ids, workers and expiries. |
| `EngineLeases.InitLeaseInv` | packages/engines/sql/src/store.ts:338-362 | The empty tables have the bijection below. |
| `EngineLeases.ReachableLeaseInv` | packages/engines/sql/src/store.ts:400-616 | That bijection holds in every state any interleaving of any workers reaches. |
| `EngineFencing.StepFences` | packages/engines/sql/src/store.ts:315-329 | A token already issued that opens no live lease opens none after any step. |
| `EngineFencing.FencedForGood` | packages/engines/sql/src/store.ts:467-562 | Such a token is refused by heartbeat, complete, fail and every terminal transaction, after any further steps. |
| `EngineFencing.ReclaimFences` | packages/engines/sql/src/store.ts:315-465 | Once a task is claimed again, the token of any earlier claim of it is refused for good, whatever steps lie between the claims and after. |
| `EngineFencing.TerminalRetires` | packages/engines/sql/src/worker.ts:355-451 | A terminal transaction takes its own token out of use, whatever the outcome. |
| `EngineFencing.OneTokenPerTask` | packages/engines/sql/src/store.ts:426-460 | At any time at most one token can act for a task, and it is the one of the lease the task points to. |
| `EngineFencing.StepKeepsAttempts` | packages/engines/sql/src/store.ts:467-616 | No step but a claim changes any attempt count. |
| `EngineFencing.ClaimCountsIffCurrent` | packages/engines/sql/src/store.ts:409-463 | A claim step keeps claims equal to `attempt` exactly when the row it takes is still as it was read. |
| `EngineFencing.ClaimedExactlyAttemptTimes` | packages/engines/sql/src/store.ts:409-463 | Over any run of claims on current rows every task is claimed exactly `attempt` times. |
| `EngineFencing.CountsThroughoutIffCurrent` | packages/engines/sql/src/store.ts:409-463 | Over any interleaving whose claims work on rows read at any earlier time, claims equal `attempt` at every point exactly when every claim that takes a row takes it as it was read. |
| `EngineFencing.AttemptsStayWithinBudget` | packages/engines/sql/src/store.ts:409-463 | Over any interleaving in which claims work on rows read at any earlier time, `attempt` never exceeds the budget of the task. |
| `EngineFencing.ClaimLoopIsSteps` | packages/engines/sql/src/store.ts:409-464 | A claim call is a run of single candidate turns, each on a row as it was read. |
| `EngineFencing.ClaimLoopTakesFirst` | packages/engines/sql/src/store.ts:409-464 | It takes the first candidate with attempts left and returns nothing only when none has any. |
| `EngineFencing.ClaimCallCountsAttempts` | packages/engines/sql/src/store.ts:400-465 | One whole claim call keeps the count whatever due list the database answers. |
| `EngineFencing.StaleCandidatesWereRead` | packages/engines/sql/src/store.ts:402-453 | In the race below, every candidate is a row as it stood earlier in the run. |
| `EngineFencing.StaleCandidateOverclaims` | packages/engines/sql/src/store.ts:438-453 | When rows move between query and compare-and-set, a task with a budget of two is claimed three times: the bound needs current rows. |
| `EngineRuns.YieldReplacesTask` | packages/engines/sql/src/worker.ts:355-395 | A yield completes the one live task and creates exactly one resume task, due at once, and requeues the run. |
| `EngineRuns.StepKeepsRuns` | packages/engines/sql/src/worker.ts:177-205 | Every engine step keeps each run safe: one live task while queued or running, none after, tasks counted by yields. |
| `EngineRuns.EveryRunStaysSafe` | packages/engines/sql/src/worker.ts:293-465 | That safety holds over any interleaving of workers, stale candidates included. |
| `EngineRuns.AtMostOneTerminalEvent` | packages/engines/sql/src/worker.ts:293-465 | From empty tables at most one of completed, waiting and failed is ever logged for a run, it has one task more than it yielded, and it has a live task exactly while queued or running. |
| `EngineRuns.EngineTaskClaimedAtMostOnce` | packages/engines/sql/src/engine.ts:62-102 | Over any interleaving, stale candidates included, a task the engine started is claimed at most once. |
| `EngineRuns.FailedSilentlyIffReaped` | packages/engines/sql/src/store.ts:564-616 | Over any interleaving a run is failed without a terminal event exactly when a reap retired its task, failed with its one `run.failed` exactly when its worker failed it, and in no other way. |
| `EngineRuns.AbandonedRunFailsSilently` | packages/engines/sql/src/store.ts:596-610 | The run that ends so: started, claimed, its lease expired and reaped. |
| `EngineWorker.SqlEngineWorker.Begin` | packages/engines/sql/src/worker.ts:293-325 | Past its deadline a tick does nothing; otherwise it claims, refuses an unsupported task, or announces the start. |
| `EngineWorker.SqlEngineWorker.Beat` | packages/engines/sql/src/worker.ts:234-285 | A refused heartbeat marks the lease lost for good; a stopped one does nothing. |
| `EngineWorker.SqlEngineWorker.FailClaim` | packages/engines/sql/src/worker.ts:177-205 | Fails the task and its run with their events exactly when the token still opens the claim. |
| `EngineWorker.SqlEngineWorker.End` | packages/engines/sql/src/worker.ts:334-465 | A lost lease writes nothing; otherwise the outcome is committed as one terminal transaction or found lost. |
| `DurableStores.EffectStore.Claim` | packages/storage/durable/src/effect.ts:131-209 | A claim with nothing in between: create on a free id, else answer or take over from the row. |
| `DurableStores.EffectStore.TryCreate` | packages/storage/durable/src/effect.ts:187-207 | Creates the started row under a fresh token, or nothing on a taken id. |
| `DurableStores.EffectStore.ClaimExisting` | packages/storage/durable/src/effect.ts:146-182 | The decision over a row read earlier: the compare-and-set takes an expired lease over, and a miss answers from the row as it is now. |
| `DurableStores.EffectStore.Heartbeat` | packages/storage/durable/src/effect.ts:211-221 | Extends exactly under the active lease. |
| `DurableStores.EffectStore.Complete` | packages/storage/durable/src/effect.ts:223-246 | Completes exactly under the active lease, keeping an old output when none is given. |
| `DurableStores.EffectStore.Fail` | packages/storage/durable/src/effect.ts:248-268 | Fails exactly under the active lease. |
| `EffectsModel.StepDescends` | packages/storage/durable/src/effect.ts:131-268 | Any write keeps a row's tool and input hash, and a row that left `started` does not change again. |
| `EffectsModel.RowsOnlyFinish` | packages/storage/durable/src/effect.ts:131-268 | The same over any run of writes by any processes. |
| `EffectsModel.ClaimsAgreeWithRow` | packages/storage/durable/src/effect.ts:75-87 | A claim is accepted only with the creating claim's tool and input, and a completed answer shows the one output for ever. |
| `EffectsModel.AtMostOneCompletion` | packages/storage/durable/src/effect.ts:223-246 | At most one complete succeeds for an id over any run. |
| `EffectsModel.FencedForGood` | packages/storage/durable/src/effect.ts:89-107 | A token that does not hold the row is inactive for ever. |
| `EffectsModel.ReclaimFences` | packages/storage/durable/src/effect.ts:162-177 | An accepted claim fences every older token for good. |
| `DurableStores.ApprovalStore.Act` | packages/storage/durable/src/approval.ts:76-112 | Grant, deny and consume take exactly from pending, pending and an unexpired grant, and return the row only then. |
| `DurableStores.ApprovalSingleUse` | packages/storage/durable/src/approval.ts:76-112 | Over any sequence of acts at most one decision and one consumption take, a consumption follows a grant, and denied or consumed is final. |
| `DurableStores.RunCheckpointStore.Consume` | packages/storage/durable/src/run-checkpoint.ts:74-83 | A pending checkpoint is handed out once, with the metadata it was created with. |
| `ApprovedOnce.ActKeepsOnce` | packages/runtime/src/runtime.ts:927-1011 | Every action of any concurrent continueRun call keeps: no two holders, no second execution, everything past loading authorised. |
| `ApprovedOnce.ApprovedRunsAtMostOnce` | packages/runtime/src/runtime.ts:1372-1385 | An approved action without idempotency runs its tool at most once and is consumed at most once, over any interleaving of calls, crashes, replays and other processes. |
| `ApprovedOnce.ParkedApprovalStarts` | packages/runtime/src/runtime.ts:1333-1385 | A pending approval whose effect is new satisfies the hypotheses. |
| `ApprovedOnce.DeniedNeverRuns` | packages/runtime/src/runtime.ts:1296-1332 | A denied action never runs. |
| `ApprovedOnce.ReclaimCanRunTwice` | packages/runtime/src/runtime.ts:927-1011 | With idempotency that lets an expired effect lease be taken over, the tool can run twice under one consumed approval. |
| `Governance.GovernanceCore.Add` | packages/foundation/core/src/governance.ts:203-241 | Accepted exactly when no sealed gate owns the id; a replacement keeps ids unique and goes to its group's end. |
| `Governance.GovernanceCore.Register` | packages/foundation/core/src/governance.ts:203-249 | One registration over the three lists and their shared id sets; refused ones change nothing. |
| `Governance.AddedKeeps` | packages/foundation/core/src/governance.ts:220-241 | Adding keeps ids unique, sealed gates a prefix that only grows, and every gate of another id. |
| `Governance.RegistrationsKeepSeals` | packages/foundation/core/src/governance.ts:203-249 | After any registrations ids are unique per list and no sealed gate is lost, replaced or reordered. |
| `Governance.RegisteredGatesAreDistinct` | packages/foundation/core/src/governance.ts:203-249 | After any registrations no two gates the pipeline asks share an id, the boundary and the tool list together. |
| `Governance.FirstBlockFinds` | packages/foundation/core/src/governance.ts:260-305 | The pipeline stops at the first gate that does not permit, skipping the bypassed id. |
| `Governance.ToolRunsIffPermitted` | packages/foundation/core/src/governance.ts:310-383 | The tool is reached exactly when every matching gate other than the bypassed one permits. |
| `Governance.ShownUpToFirstThrow` | packages/foundation/core/src/governance.ts:385-393 | The after-gates that see the outcome are the matching ones, once each and in order, up to and including the first that throws. |
| `Governance.EachObserverSeesOnce` | packages/foundation/core/src/governance.ts:385-393 | Every matching after-gate sees the outcome once, in order, exactly when none of them but the last throws. |
| `Governance.ThrowingObserverHidesOutcome` | packages/foundation/core/src/governance.ts:385-393 | Any matching after-gate behind one that throws does not see the outcome. |
| `Governance.GovernanceCore.AskGates` | packages/foundation/core/src/governance.ts:260-305 | The gate loop finds the first block. |
| `Governance.GovernanceCore.RunGoverned` | packages/foundation/core/src/governance.ts:310-383 | The trace holds the tool once exactly when nothing blocked, then what the after-gates saw; the result is lost exactly when one throws. |
| `Governance.GovernanceCore.Show` | packages/foundation/core/src/governance.ts:385-393 | After-gates in order until one throws. |
| `GovernedLoop.AddUsageAssociates` | packages/runtime/src/ai-sdk-loop.ts:139-181 | Usage sums associate, so invocations may be added in any grouping; unreported counts stay unreported. |
| `GovernedLoop.UnaskedIsPermitted` | packages/foundation/core/src/governance.ts:310-383 | Where no gate asks, permitting the asking gates changes nothing. |
| `GovernedLoop.BypassIsPermitted` | packages/foundation/core/src/governance.ts:498-511 | Replaying a parked call with its gate bypassed gives the permitted run's result exactly when no other gate asks. |
| `GovernedLoop.StepMatches` | packages/runtime/src/ai-sdk-loop.ts:338-463 | A step of the interrupted run is the permitted run's step, or parks exactly the call that step governs. |
| `GovernedLoop.RunPlusRest` | packages/runtime/src/ai-sdk-loop.ts:264-497 | What one invocation did and what is left of it make up the permitted run, usage included. |
| `GovernedLoop.NextPlusRest` | packages/runtime/src/runtime.ts:1281-1526 | One more resume or continue keeps that balance. |
| `GovernedLoop.InterruptionsAreTransparent` | packages/runtime/src/runtime.ts:1281-1526 | However a run is sliced at deadlines and parked at gates that are granted, a final end equals the uninterrupted run's in text, step count, transcript or failure, and the usages add up. |
| `GovernedLoop.OneAskerNeverAsksAgain` | packages/runtime/src/runtime.ts:1372-1385 | Where no call is asked about by two gates, a granted call is never parked again. |
| `GovernedLoop.YieldsAreTransparent` | packages/runtime/src/runtime.ts:810-841 | Without asking gates, slicing alone never changes the run. |
| `GovernedLoop.InvocationsAdvance` | packages/runtime/src/ai-sdk-loop.ts:465-491 | A yield parks strictly later than its slice began and before the last step. |
| `GovernedLoop.DriveEnds` | packages/runtime/src/runtime.ts:1473-1526 | A run is final after a bounded number of invocations, whatever the clocks. |
| `RuntimeLoop.Runtime.GovernCall` | packages/runtime/src/ai-sdk-loop.ts:338-463 | The loop state at a park holds exactly the call, transcript and step an approval must keep. |
| `RuntimeLoop.Runtime.RunLoop` | packages/runtime/src/ai-sdk-loop.ts:245-498 | The loop in place computes the specified run, with the parked state left in RunState. |
| `RuntimeLoop.Runtime.Invoke` | packages/runtime/src/runtime.ts:810-841 | A yield is kept as one new checkpoint, and nothing else is written. |
| `RuntimeLoop.Runtime.ResumeRun` | packages/runtime/src/runtime.ts:1473-1526 | Only the call that consumes the checkpoint goes on, from its step and transcript; any other changes nothing. |
| `RuntimeLoop.Runtime.ContinueRun` | packages/runtime/src/runtime.ts:1372-1462 | Continuing a granted approval is the specified continuation. |
| `EditDistance.LastCell` | packages/foundation/core/src/redact.ts:110-127 | The two rolling rows end with the last cell of any table with the borders and recurrence of edit distance. |
| `EditDistance.Distance` | packages/foundation/core/src/redact.ts:110-127 | The method returns the recursive Levenshtein distance. |
| `EditDistance.Symmetric` | packages/foundation/core/src/redact.ts:109-127 | The distance is symmetric. |
| `EditDistance.ZeroIffEqual` | packages/foundation/core/src/redact.ts:109-127 | It is zero exactly between equal words. |
| `EditDistance.Triangle` | packages/foundation/core/src/redact.ts:109-127 | It satisfies the triangle inequality. |
| `EditDistance.LeastNumberOfEdits` | packages/foundation/core/src/redact.ts:109-127 | It is the least length of a chain of single insertions, deletions and substitutions. |
| `EditDistance.Nearest` | packages/foundation/core/src/redact.ts:140-150 | The scan returns the smallest distance below the cap and every listed word at it. |
| `EditDistance.RepairWord` | packages/foundation/core/src/redact.ts:133-152 | The method's candidates are those of the repair specification: the word, its prefix's word within two edits, or all nearest within two. |
| `EditDistance.RepairsAreListed` | packages/foundation/core/src/redact.ts:129-152 | Every repair is a listed word within two edits. |
| `EditDistance.RepairsOneEdit` | packages/foundation/core/src/redact.ts:129-152 | In a codebook with pairwise distance three, a word within one edit of `v` repairs to `v` alone exactly when it is `v` or its prefix is not another word's within two edits. |
| `EditDistance.CompletedPrefixDiverts` | packages/foundation/core/src/redact.ts:133-139 | In any separated codebook with distinct prefixes, a one-letter corruption that completes the prefix of another word within two edits is repaired to that word. |
| `EditDistance.PrefixLookupCanDivert` | packages/foundation/core/src/wordlist.ts:4-6 | So separation and distinct prefixes do not suffice: with "daily" and "daringly", as the generic list has them, the one-letter corruption "darily" of the first is repaired to the second. |
| `EditDistance.DivertedWordsAreSeparated` | packages/foundation/core/src/wordlist.ts:89-90 | The two words alone have the separation and the prefixes the lists promise. |
| `EditDistance.RepairKind` | packages/foundation/core/src/redact.ts:156-170 | The method returns the only nearest kind within one edit. |
| `EditDistance.KindIsOnlyNearest` | packages/foundation/core/src/redact.ts:154-170 | A kind is returned exactly when it is within one edit and strictly nearer than every other. |
| `Recovery.ProductIsExact` | packages/foundation/core/src/redact.ts:172-187 | The enumeration holds exactly the codes that take one word of each slot. |
| `Recovery.CandidateCodes` | packages/foundation/core/src/redact.ts:174-187 | The method returns the whole product, or refuses when some prefix of the slots passes the cap. |
| `Recovery.Extend` | packages/foundation/core/src/redact.ts:176-184 | One slot's round extends every combination by every word, or refuses past the cap. |
| `Recovery.RefusedIffTooMany` | packages/foundation/core/src/redact.ts:102-187 | With a word in every slot, enumeration is refused exactly when there are more than 24 codes. |
| `Recovery.EmptySlotCanStillRefuse` | packages/foundation/core/src/redact.ts:176-185 | A later empty slot does not undo a refusal: the cap is met before the product becomes empty. |
| `Recovery.ResolveAll` | packages/foundation/core/src/redact.ts:461-486 | Resolving every candidate accepts only when all hits give one value. |
| `Recovery.RecoverFrame` | packages/foundation/core/src/redact.ts:440-487 | The method computes the recovery specification: as written first, then the unanimous repair. |
| `Recovery.RepairedIffUnanimous` | packages/foundation/core/src/redact.ts:435-487 | A frame that does not resolve as written recovers to a value exactly when the kind repairs, there are at most 24 codes, one resolves to it and none to another. |
| `Recovery.SubstitutionIsOwn` | packages/foundation/core/src/redact.ts:96-100 | A frame is left byte for byte or replaced by an original of the caller's own container. |
| `Recovery.OtherContainersAreInert` | packages/foundation/core/src/redact.ts:96-100 | Stores that agree on the caller's container substitute the same text for every frame. |
| `Recovery.SubstituteFrame` | packages/foundation/core/src/redact.ts:511-518 | Exact, else recovered, else as it stands. |
| `Recovery.RehydrateFrames` | packages/foundation/core/src/redact.ts:489-520 | The loose pass keeps the text between frames and substitutes each frame. |
| `Recovery.EmptyContainerChangesNothing` | packages/foundation/core/src/redact.ts:506-519 | A container without mappings changes no text. |
| `Recovery.OneEditAWordIsUndone` | packages/foundation/core/src/redact.ts:96-100 | A frame whose kind is intact and whose words are each one undiverted edit off a code resolves to that code's value. |
| `Placeholders.TokenLengthIsExact` | packages/foundation/core/src/redact.ts:35-39 | The hand matcher finds exactly the placeholders of the pattern, and at most one at a place. |
| `Placeholders.TokensAreApart` | packages/foundation/core/src/redact.ts:35-39 | Two placeholders of a text are the same one or do not overlap. |
| `Placeholders.Rehydrate` | packages/foundation/core/src/redact.ts:493-503 | The match loop computes exact rehydration. |
| `Placeholders.RehydratedInParts` | packages/foundation/core/src/redact.ts:493-503 | Where no placeholder lies across a cut, the parts rehydrate on their own. |
| `Redaction.CleanSpans` | packages/foundation/core/src/redact.ts:282-295 | The loop computes the cleaning of the sorted spans. |
| `Redaction.CleaningIsGreedy` | packages/foundation/core/src/redact.ts:282-295 | Cleaned spans are valid, ordered and disjoint, and a dropped valid span is reached into by a kept one that starts earlier, or there and is at least as long. |
| `Redaction.TakenRanges` | packages/foundation/core/src/redact.ts:305-309 | The ranges are those of all placeholders of the text and of nothing else. |
| `Redaction.SpansToRedact` | packages/foundation/core/src/redact.ts:297-315 | The spans redacted touch no placeholder, and every detected span that touches none is kept, invalid or beaten by a kept one. |
| `Redaction.RedactionIsUndone` | packages/foundation/core/src/redact.ts:389-431 | Replacing untouched spans by placeholders that resolve to what they covered is undone by rehydration, whatever else the resolver does. |
| `Redaction.RedactionKeepsPlaceholders` | packages/foundation/core/src/redact.ts:297-315 | Every placeholder of the text is still in the redacted text. |
| `Redactor.Redactor.Mint` | packages/foundation/core/src/redact.ts:365-376 | A minted placeholder matches the pattern and is unused, unless all 24 attempts collided. |
| `Redactor.Redactor.PlaceholderFor` | packages/foundation/core/src/redact.ts:397-426 | A known value reuses its placeholder; another gets a new mapping and no row is lost. |
| `Redactor.Redactor.MintAndSave` | packages/foundation/core/src/redact.ts:412-426 | A value without a mapping gets exactly one new row, under an unused key. |
| `Redactor.Redactor.ReplaceSpans` | packages/foundation/core/src/redact.ts:394-430 | The loop's output is the text with every span replaced by a placeholder of the resulting store for its value. |
| `Redactor.Redactor.RedactText` | packages/foundation/core/src/redact.ts:378-431 | In the resulting store and every store that keeps its mappings, the redacted text rehydrates to what the text rehydrates to; existing placeholders survive and no mapping changes. |
| `Redactor.Redactor.OneValueOnePlaceholder` | packages/foundation/core/src/redact.ts:397-404 | With an index key, one value of one kind has one placeholder in its container. |
| `StreamRehydrator.StreamRehydrator.Push` | packages/runtime/src/ai-sdk-loop.ts:226-236 | Emits the rehydrated part before the last unclosed pair of braces and holds the rest. |
| `StreamRehydrator.StreamRehydrator.Flush` | packages/runtime/src/ai-sdk-loop.ts:237-241 | Releases what is held. |
| `StreamRehydrator.StreamRehydrator.Stream` | packages/runtime/src/ai-sdk-loop.ts:280-286 | Pushes then flush give the specified stream. |
| `StreamRehydrator.StraddledIffCutsToken` | packages/runtime/src/ai-sdk-loop.ts:228-235 | A placeholder lies across the end of what is emitted exactly when the buffer, emitted whole, ends in its first brace. |
| `StreamRehydrator.StreamsIffNotHarmful` | packages/runtime/src/ai-sdk-loop.ts:211-243 | For every mapping the stream equals whole-text rehydration, exactly when no delta ends at such a cut. |
| `StreamRehydrator.StreamsUnlessPairSplit` | packages/runtime/src/ai-sdk-loop.ts:211-243 | So it does when no boundary falls between two adjacent opening braces. |
| `StreamRehydrator.SplitOpeningIsHarmful` | packages/runtime/src/ai-sdk-loop.ts:228-235 | The failing stream: "{" then "{pii:a}}" ends at such a cut, and a mapping of that placeholder shows the difference. |
| `PiiStores.TableStore.SaveMapping` | packages/storage/durable/src/pii.ts:84-121 | Updates the first row the where clause hits or creates one, and links each subject once. |
| `PiiStores.TableStore.DeleteForSubject` | packages/storage/durable/src/pii.ts:140-180 | Deletes every row and link the subject's links hit, each key once. |
| `PiiStores.TableStore.ResolvePlaceholder` | packages/storage/durable/src/pii.ts:123-130 | The original of the row in exactly that container. |
| `PiiStores.TablesAreExactIffOnlyOwnHits` | packages/storage/durable/src/pii.ts:84-180 | Whatever the containers, the tables resolve and link at every point of a history exactly what was saved and not erased since, if and only if no save or erasure in it hits what is not its own. |
| `PiiStores.FullSavesHitOwn` | packages/storage/durable/src/pii.ts:20-53 | Saves in full containers, and erasures of them, hit only their own. |
| `PiiStores.TablesAreExact` | packages/storage/durable/src/pii.ts:84-180 | So for full containers, the tables resolve exactly what was saved and not erased since through a linked subject, over any history. |
| `PiiStores.SavesExactlyIffUpdatesOwn` | packages/storage/durable/src/pii.ts:84-98 | A save is resolved under its key and leaves every other key alone, exactly when the row it updates first is its own or every original it touches is the same. |
| `PiiStores.LinksExactlyIffOwn` | packages/storage/durable/src/pii.ts:99-120 | A save adds the links of its own key and no others, exactly when no link of a namesake that the where clause hits stands in for one. |
| `PiiStores.ResaveOverwritesNamesake` | packages/storage/durable/src/pii.ts:90-95 | The failing save: saved again outside any container, a mapping overwrites the original of a namesake stored first. |
| `PiiStores.NamesakeTakesTheLink` | packages/storage/durable/src/pii.ts:99-111 | The failing link: a namesake linked to the subject keeps the saved key from being linked. |
| `PiiStores.ErasesExactlyIffNoForeignHit` | packages/storage/durable/src/pii.ts:140-180 | For any containers, an erasure removes the rows and links under the subject's keys and no others exactly when no where clause built from such a key hits a stored key that is not the subject's. |
| `PiiStores.ContextlessLinkErasesNamesakes` | packages/storage/durable/src/pii.ts:157-178 | A link saved outside any container makes an erasure reach its namesakes in every container. |
| `PiiStores.MemoryStore.SaveMapping` | packages/foundation/core/src/redact.ts:208-223 | Replaces the mapping and indexes its key under each subject. |
| `PiiStores.MemoryStore.DeleteForSubject` | packages/foundation/core/src/redact.ts:242-251 | Removes the subject's keys, then takes them out of the other sets while its own set is being emptied. |
| `PiiStores.MemoryStore.EmptySets` | packages/foundation/core/src/redact.ts:247-249 | The loop over all sets reads the erased subject's own set while it empties it. |
| `PiiStores.MemoryStore.ResolvePlaceholder` | packages/foundation/core/src/redact.ts:224-230 | The original in exactly that container. |
| `PiiStores.MemoryStore.FindByHash` | packages/foundation/core/src/redact.ts:231-241 | A mapping of that container with that hash, exactly when there is one. |
| `PiiStores.MemoryIsExact` | packages/foundation/core/src/redact.ts:189-253 | The memory store resolves what the history says as long as no erasure meets a stale key in use. |
| `PiiStores.StoresAgreeIffNoStaleErasure` | packages/foundation/core/src/redact.ts:242-251 | As long as the tables hit only their own, the two stores resolve alike at every point of a history exactly when no erasure in it meets a stale key in use. |
| `PiiStores.NeverReusedStoresAgree` | packages/foundation/core/src/redact.ts:362-376 | So they do when no placeholder is saved again after its erasure. |
| `PiiStores.StaleKeyErasesTooMuch` | packages/foundation/core/src/redact.ts:246-249 | The failing history: shared by two subjects, erased through the first, saved again for nobody, lost when the second is erased; the stores then disagree. |
| `WhereTree.MatchWhere` | packages/storage/core/src/index.ts:103-127 | The loop computes the left fold, with the error of an empty group that is reached. |
| `WhereTree.MatchGroup` | packages/storage/core/src/index.ts:110-121 | Members are evaluated in order until one decides. |
| `WhereTree.LikeContains` | packages/storage/drizzle/src/index.ts:42-53 | `%`, the escaped value, `%` matches exactly the strings that include the value. |
| `WhereTree.LikeStartsWith` | packages/storage/drizzle/src/index.ts:42-53 | The escaped value and `%` match exactly the strings it begins. |
| `WhereTree.LikeEndsWith` | packages/storage/drizzle/src/index.ts:42-53 | `%` and the escaped value match exactly the strings it ends. |
| `WhereTree.FoldedPattern` | packages/storage/drizzle/src/index.ts:49-53 | Lower-casing a pattern lower-cases the value in it and nothing else. |
| `WhereTree.WhereClause` | packages/storage/drizzle/src/index.ts:140-178 | The loop compiles to the specified condition, or refuses with the first error. |
| `WhereTree.CompileGroup` | packages/storage/drizzle/src/index.ts:147-165 | Members are compiled in order up to the first that fails. |
| `WhereTree.CompilesIffWellFormed` | packages/storage/drizzle/src/index.ts:90-178 | Compilation fails exactly on an empty group, an unknown field or a null not compared for equality. |
| `WhereTree.ClauseAgreesIffNotDivergent` | packages/storage/drizzle/src/index.ts:90-137 | Where a clause compares values of one type or null, its condition holds exactly when it matches in memory, unless an absent field is compared with null, a null cell is compared with something else, a membership list holds a null that matters, or a pattern that is not a string occurs in the stored string; and in each of these cases it does not. |
| `WhereTree.DivergentClauses` | packages/storage/drizzle/src/index.ts:90-137 | Three failing clauses: null on an absent field, a null cell unequal to five, and the number five as a pattern. |
| `WhereTree.CompilingKeepsMeaning` | packages/storage/drizzle/src/index.ts:140-178 | For every tree and every row on which no clause of it is one of those, the SQL condition selects the row exactly when the tree matches it, nulls and absent fields included. |
| `WhereTree.ThrowsIffReaches` | packages/storage/core/src/index.ts:98-127 | Evaluation in memory fails exactly when it reaches an empty group: no earlier member on the way decides its group. |
| `WhereTree.ThrowsOnlyOnEmptyGroup` | packages/storage/core/src/index.ts:98-127 | A tree without empty groups never fails in memory, whatever the row. |
| `WhereTree.SkippedEmptyGroup` | packages/storage/core/src/index.ts:113-121 | The failing tree: an empty group after a member that decides its group goes unnoticed in memory and is refused by the compiler. |
| `SchemaAdapter.PrepareFields` | packages/storage/core/src/schema-adapter.ts:60-79 | Accepted exactly when no two fields share a column, and then each column leads back to its field. |
| `SchemaAdapter.PrepareSchema` | packages/storage/core/src/schema-adapter.ts:39-88 | Accepted exactly when models have names and tables of their own and their fields columns of their own. |
| `SchemaAdapter.TransformsIffKnown` | packages/storage/core/src/schema-adapter.ts:187-253 | A query is refused exactly when it names an undeclared field. |
| `SchemaAdapter.TextClauseKeptIffNotDiffering` | packages/storage/core/src/schema-adapter.ts:204-253 | On a JSON field stored as text, a case-sensitive equality or a membership is answered as on the value, exactly unless the value equals the one queried and is null or a list, or is a list among the items. |
| `SchemaAdapter.NullsAndListsDiffer` | packages/storage/core/src/schema-adapter.ts:228-250 | The failing clauses: a stored JSON null is not found by a query for null, and a stored list is found by a query for its like. |
| `SchemaAdapter.OtherComparisonsDiffer` | packages/storage/core/src/schema-adapter.ts:228-250 | Order, patterns and case-insensitive equality are not kept by the texts: one failing clause of each. |
| `SchemaAdapter.TranslationKeepsQueries` | packages/storage/core/src/schema-adapter.ts:204-253 | The translated tree matches the stored row exactly when the tree matches the logical row, errors included, for every tree whose clauses on text-stored JSON fields are kept on that row. |
| `SchemaAdapter.TransformCreateData` | packages/storage/core/src/schema-adapter.ts:275-313 | Succeeds exactly when keys are known and required fields filled, and stores the encoding of the data with its defaults. |
| `SchemaAdapter.DecodeRow` | packages/storage/core/src/schema-adapter.ts:355-390 | Succeeds exactly when every read column decodes, and gives each field what its column holds. |
| `SchemaAdapter.ReadingUndoesCreating` | packages/storage/core/src/schema-adapter.ts:120-153 | Reading a created row gives the data and its defaults, without hidden columns and optional nulls. |
| `SchemaAdapter.CreatedIsReadable` | packages/storage/core/src/schema-adapter.ts:136-153 | A created row always decodes. |
| `SchemaAdapter.TransformUpdateData` | packages/storage/core/src/schema-adapter.ts:315-353 | Accepted exactly when no key is unknown or immutable; writes the given and on-update columns and no others. |
| `SchemaAdapter.ImmutableIffNoOnUpdate` | packages/storage/core/src/schema-adapter.ts:322-352 | No accepted update writes an immutable column exactly when no immutable field has an on-update value. |
| `AuditChain.MemoryAudit.Append` | packages/foundation/core/src/audit.ts:54-82 | The log grows by one chained record. |
| `AuditChain.CheckEntry` | packages/foundation/core/src/audit.ts:117-145 | The link, hash and sequence problems of one record. |
| `AuditChain.WalkLog` | packages/foundation/core/src/audit.ts:113-151 | The problems of all records in order, and the last hash shown for each sequence number. |
| `AuditChain.CheckAnchor` | packages/foundation/core/src/audit.ts:155-173 | The one problem of an anchor, if it has any. |
| `AuditChain.VerifyAuditChain` | packages/foundation/core/src/audit.ts:109-177 | Every problem of every record and anchor is collected, in order. |
| `AuditChain.VerifiesIffChainedAndAnchored` | packages/foundation/core/src/audit.ts:91-107 | A log verifies exactly when it is chained and shows every anchored head. |
| `AuditChain.GenuineLogVerifies` | packages/foundation/core/src/audit.ts:54-82 | An appended log verifies against every head it ever had. |
| `AuditChain.AnchorPinsHistory` | packages/foundation/core/src/audit.ts:102-107 | With a collision-free hash, a log that verifies against an anchor of a genuine log equals it up to and including the anchored entry. |
| `AuditChain.RewriteVerifiesWithoutAnchors` | packages/foundation/core/src/audit.ts:97-101 | Without anchors any list of bodies can be chained into a log that verifies. |
| `AccessGraph.BuildApiEntities` | packages/foundation/authz/src/api.ts:161-252 | The loops render the specified graph. |
| `AccessGraph.CollectBases` | packages/foundation/authz/src/api.ts:181-188 | Every base the graph needs, each once. |
| `AccessGraph.RenderChains` | packages/foundation/authz/src/api.ts:190-204 | Three linked levels per base. |
| `AccessGraph.CollectParents` | packages/foundation/authz/src/api.ts:211-223 | The caller's edges: held scopes, then grants that reach it. |
| `AccessGraph.NodesAreDistinct` | packages/foundation/authz/src/api.ts:176-205 | An access node's id determines its base and its level. |
| `AccessGraph.CallerReaches` | packages/foundation/authz/src/api.ts:188-231 | The caller reaches a base's level exactly when it is given that base at that level or above. |
| `AccessGraph.GraphDecidesRenderedRule` | packages/foundation/authz/src/api.ts:261-289 | For any labels the decision is the level comparison over rendered labels, behind the actor floor. |
| `AccessGraph.GraphDecidesRule` | packages/foundation/authz/src/api.ts:86-91 | With scope labels free of the separator the decision is the plain rule: owner, scope at the level or above, or reaching grant at the level or above. |
| `AccessGraph.RuleUnlessCollision` | packages/foundation/authz/src/api.ts:179-180 | In general it is the plain rule exactly unless only a scope rendering to the same label opens the resource. |
| `AccessGraph.SeparatorCollides` | packages/foundation/authz/src/api.ts:179-180 | Such a scope exists once a label holds the separator. |

## Left out

- Statements across two databases or process memory: each store method, and each write of the effect claim, is one atomic step; partial failure inside a transaction is not modelled.
- The in-process `locks` map of the effect store: claims are modelled both whole and split, which covers runs with and without it.
- Timers, abort signals and promises: deadlines and heartbeats are steps that may come at any time; `walk` over nested values is not modelled, texts are redacted one at a time.
- Tool errors inside `runTool` beyond completed and failed effects, output modes, rehydration of tool arguments and nested sandbox calls.
- The streaming path of the model loop apart from its rehydrator: deltas do not change transcript or result.
- Governance.GovernanceCore.RunGoverned: the redaction of the error text that after-gates and callers see is not modelled; the reason is one text.
- Gates that keep state: the transparency results take a gate's verdict as a function of the call.
- The loose placeholder regular expression: recovery starts from frames already split into kind and words.
- StreamRehydrator.StreamRehydrator.Push: emits by exact rehydration; the default redactor, whose loose scan also repairs damaged frames, is modelled on whole texts only (`Recovery`).
- StreamRehydrator.StreamRehydrator.Flush: exact rehydration as for Push; that streaming and loose recovery give the same text is not claimed.
- Redaction.RedactionIsUndone: undone by exact rehydration; the loose scan can find damaged frames in the rest of the text as well.
- Word lists and random bytes: codebooks and drawn codes are parameters; separation is a hypothesis where it is used.
- Redactor.Redactor.RedactText: span positions are integers and kinds are checked, the other schema checks on detected spans and `createdAt` are not modelled; that spans carry the text they cover and that the unchecked last draw is new are hypotheses.
- PiiStores.StoresAgreeIffNoStaleErasure: covers resolution, not `findByHash`, because an update without a hash keeps the old one in the tables and drops it in memory.
- WhereTree.CompilingKeepsMeaning: what SQL makes of values of different types, of lists and of collations is left to the database, and LIKE is case-sensitive as with `case_sensitive_like` on.
- WhereTree.MatchWhere: dates are left out; lists and objects equal nothing, as object identity gives, and are not ordered; that a string is ordered beside a number as the number it spells is left out.
- WhereTree.ClauseAgreesIffNotDivergent: covers cells and values of one type or null; see the line on types above.
- SchemaAdapter.TranslationKeepsQueries: strict mode only; on a JSON field stored as text, clauses of order, pattern or case-insensitive equality are outside it, as `OtherComparisonsDiffer` shows they must be.
- SchemaAdapter.DecodeRow: `select` lists and the extra columns of non-strict mode are not modelled; column names that are properties of every object are not either.
- AuditChain.MemoryAudit.Append: input validation and freezing; a record's other fields are one text.
- AccessGraph.GraphDecidesRule: the policy engine is membership along parents and the baseline permits; custom policies, forbids and shadow evaluation are not modelled.
- The memory adapter's tables and snapshot transaction, sorting and paging.
- Message append of the thread store, the policy router's cache, the projection of tool arguments and the egress address checks: their claims are simpler than those above.
- HTTP, client, proxy, OpenAPI, telemetry, secrets and configuration code.
