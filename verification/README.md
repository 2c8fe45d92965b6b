# ReconX: a verified model of reconciliation, resolution and ingestion

ReconX takes records of the same business transaction from several source systems, decides whether
they agree, and lets people or a retry worker resolve those that do not. Its services share one
PostgreSQL database and no locks. This project models what they do to that database and proves what
holds of it over all inputs, runs and interleavings.

`dafny verify dfyconfig.toml` checks the whole project.

| file | what it models |
|---|---|
| `Rules.dfy` | the tolerance relation and the expected-source rule |
| `Matcher.dfy` | the matcher: latest record per source, gates, parsing, currency check, three strategies, with their loops |
| `Clustering.dfy`, `Majority.dfy`, `MatcherLaws.dfy` | what the strategies mean: first-fit buckets, dependence on the order of a hash map, agreement, error bounds, monotonicity |
| `Answers.dfy` | what the matcher answers, for each gate and strategy, without its intermediate steps |
| `Backoff.dfy` | the retry worker's capped exponential schedule |
| `Cases.dfy` | one transaction's rows in all tables, and one function per SQL statement |
| `Transitions.dfy` | each service operation as one step |
| `Database.dfy`, `Engine.dfy`, `Resolution.dfy` | the tables, the engine and the resolution service as classes, proved against those functions |
| `Outcomes.dfy` | what each operation leaves of a transaction's rows, field by field |
| `Invariants.dfy`, `Protocol.dfy`, `Audit.dfy` | runs of whole operations: invariants, finality, termination, spacing, audit replay |
| `Escalation.dfy` | for which configurations the pending timeout takes effect |
| `Statements.dfy` | every operation as a program of single statements; clients interleave, statements fail, calls time out, clients crash |
| `Interleaving.dfy`, `Refinement.dfy`, `Races.dfy` | what survives any interleaving, that undisturbed programs are the one-step operations, and what is lost otherwise |
| `Finality.dfy`, `Survival.dfy` | when resolutions and decisions survive every interleaving, exactly |
| `ResolutionAudit.dfy`, `HalfWritten.dfy`, `Counting.dfy` | what failures and overlaps do to audit replay, to the index of the details and to the attempt counter |
| `Ingestion.dfy`, `Replay.dfy`, `IngestionRaces.dfy` | idempotent ingestion: one submission at a time, over histories, and statement by statement |
| `Paging.dfy` | keyset pagination over a table that changes between pages |

How to read the model:

- Source names, transaction refs, currencies, idempotency keys and ids are natural numbers: the
  system only compares and orders them. Times are milliseconds; amounts are whole numbers of one
  smallest unit; a percentage is a number of units of 10^-10, which is how the engine renders it.
- The order in which the engine's hash map yields the deduplicated records is arbitrary, and so is
  the order of rows with equal arrival times. A `Reading` reports both choices of one match.
- `Protocol` runs let whole operations follow each other (one polling visit, one RPC, one fetched
  queue entry at a time); the writes whose errors the code ignores succeed there. `Statements` runs
  drop both assumptions.
- Times are whole milliseconds. Where the database wants one time strictly before another, the model's
  next instant is a millisecond later; this is the `+ 1` in `Escalation.Gap`.
- Polls may come at any moment. One engine worker polls every `poll_interval_secs`
  (services/engine/src/engine/worker.rs:59); when that is longer than the backoff, the run of
  `Escalation.GivesUp` takes several workers, or restarts.
- The network between retry worker and engine, the source a resolver strategy picks, and the verdict
  of the ingestion pipeline are inputs.
- A retrigger or a resolution is always of one transaction, and every SQL statement modelled is keyed
  by one transaction, so a state is a product of `Case`s.

Where the code and its comments or tests differ, the model follows the code:

- majority: every bucket of the largest size wins, so two disagreeing sources come out MATCHED, while
  a two-to-one split is MISMATCHED; a unit test expects MATCHED for it
  (services/engine/src/engine/matcher.rs:466-471, 638-648);
- the pending timeout is documented to escalate PENDING to MISMATCHED (README.md:190,
  docs/reconciliation-engine.md:167), but the worker stops polling when its attempts are used up
  (services/engine/src/db/queries.rs:106-107); `Escalation.EscalatesIff` gives the exact condition on
  the configuration, and the shipped one (services/engine/config/default.toml:49-58) does not meet it;
- backoff: the exponent is `attempt - 1`, the comments say `attempt`
  (services/resolution/internal/retry/worker.go:328-332);
- `EnqueueRetry` does change a PENDING entry's limit, requester and due time, and leaves a RESOLVED
  one RESOLVED (services/resolution/internal/db/db.go:399-427); `Protocol.ClosedForGood` says what
  follows from that;
- `Insert` ignores a repeated key, the comment promises an error
  (services/ingestion/internal/storage/storage.go:77-91);
- after its lifetime a resubmission is answered with an id that is stored nowhere, although the
  handler is meant to return the original response (services/ingestion/internal/server/server.go:69-71);
  `Replay.SuccessNamesStored` gives the exact condition.

Some invariants of whole operations hold of interleaved statements as well, with failures, timeouts and
crashes anywhere (`Interleaving.AnyInterleavingIsSafe`). Five do not; each is lost from any state of a
stated kind, and each is kept under a stated condition:

- a resolution is final: lost in `Races.ResolutionLost`, kept exactly as `Finality.FinalIff` says;
- a decided transaction is not undecided: lost in `Races.DecisionUndone`, kept exactly as
  `Survival.DecisionsSurviveIff` says;
- the audit log replays to the status: lost in `Races.SilentResolution` and `HalfWritten.ReplayLost`. For
  each status write and its audit line, when nobody overtakes them, it is kept exactly as
  `ResolutionAudit.ResolutionReplaysIff`, `AutoApplyReplaysIff`, `ResetReplaysIff` and
  `MatchReplaysIff` say;
- the source lists of the state row agree with the detail rows: lost in `HalfWritten.IndexLost`, kept by a
  match that nobody overtakes exactly as `HalfWritten.IndexedIff` says;
- the attempt counter respects its limit: passed in `Counting.CountReached`, by no more than
  `Counting.CountBound` allows.

Likewise `IngestionRaces.SuccessNamesStoredIff` says exactly when a success of overlapping submissions
names the stored record, and `Majority.MajorityOrderIndependentIff` and
`MatcherLaws.ToleranceOrderIndependentIff` when the order in which the hash map yields the records
does not matter.

## Model

| member | source | states |
|---|---|---|
| `Rules.FromConfig` | services/engine/src/engine/rules.rs:27-46 | configuration is accepted iff the absolute part is a decimal and the percentage is not negative, and both are kept; every accepted tolerance accepts equal amounts, also with a negative absolute part |
| `Rules.WithinIff` | services/engine/src/engine/rules.rs:52-69 | either threshold alone suffices, and one is needed: the difference is at most the absolute tolerance, or at most the percentage of one of the two magnitudes |
| `Rules.AllSourcesPresent` | services/engine/src/engine/rules.rs:129-136 | true iff every expected source is present; no expectation means no constraint |
| `Rules.WithinReflexive` | services/engine/src/engine/rules.rs:52-69 | every amount is within tolerance of itself |
| `Rules.WithinSymmetric` | services/engine/src/engine/rules.rs:52-69 | the larger magnitude is the reference, so the relation is symmetric |
| `Rules.TransitiveIff` | services/engine/src/engine/rules.rs:52-69 | exactly when it is transitive: with no percentage and no positive absolute part, or from 200% on |
| `Rules.Intransitive` | services/engine/src/engine/rules.rs:52-69 | for every other tolerance, three amounts of which the outer two are not within tolerance but each is of the middle one |
| `Rules.WithinTowards` | services/engine/src/engine/rules.rs:52-69 | moving an accepted amount towards the reference on its own side keeps it accepted (percentage at most 100%, or no negative amount) |
| `Rules.WithinConvex` | services/engine/src/engine/rules.rs:52-69 | what a reference accepts is an interval, for non-negative amounts or percentages up to 100% or from 200% |
| `Rules.WithinEverything` | services/engine/src/engine/rules.rs:52-69 | from 200% on any two amounts are within tolerance |
| `Rules.ConvexityGap` | services/engine/src/engine/rules.rs:52-69 | for every percentage strictly between 100% and 200%: a reference that accepts two amounts but not one between them |
| `Rules.ConvexIff` | services/engine/src/engine/rules.rs:52-69 | over all amounts, acceptance is an interval around every reference iff the percentage is at most 100% or at least 200% |
| `Rules.CommonReferenceBound` | services/engine/src/engine/rules.rs:52-69 | two amounts within tolerance of one reference differ by at most twice max(absolute, pct of the largest magnitude) |
| `Matcher.Dedup` | services/engine/src/engine/matcher.rs:168-171 | the hash map holds exactly the sources of the rows, each with its last row |
| `Matcher.IntoValues` | services/engine/src/engine/matcher.rs:168-172 | emptying the map lists the latest record of every source once, in an arbitrary order |
| `Matcher.ParseAmounts` | services/engine/src/engine/matcher.rs:255-275 | all or nothing: one amount text that is not a decimal and nothing is matched; otherwise every record keeps its place and gets its amount, a missing one staying missing |
| `Matcher.FirstMalformed` | services/engine/src/engine/matcher.rs:255-275 | the reported source is that of the first record, in listing order, whose amount does not parse |
| `Matcher.CompareExact` | services/engine/src/engine/matcher.rs:320-374 | the loop flags exactly the amounts that differ from the first present one and is MATCHED iff it flags none |
| `Matcher.CompareWithTolerance` | services/engine/src/engine/matcher.rs:377-435 | the loop flags exactly the amounts not within tolerance of the first present one and is MATCHED iff it flags none |
| `Matcher.PlaceRecord` | services/engine/src/engine/matcher.rs:449-463 | the inner loop puts a record into the first bucket whose head it fits, else into a new one |
| `Matcher.BuildBuckets` | services/engine/src/engine/matcher.rs:443-464 | the outer loop computes the first-fit clustering |
| `Matcher.WinnerIndices` | services/engine/src/engine/matcher.rs:466-471 | winners are the members of every bucket of the largest size |
| `Matcher.CompareMajority` | services/engine/src/engine/matcher.rs:442-518 | exactly the non-winners are flagged, and MATCHED means no flag |
| `Matcher.MatchRecords` | services/engine/src/engine/matcher.rs:153-250 | the loops compute the decision on some listing of the latest records; the next five rows say what that decision is |
| `Answers.IncompleteAnswer` | services/engine/src/engine/matcher.rs:176-220 | with a source missing or a single one: PENDING until the timeout in whole seconds since the first record, then MISMATCHED with its reason and no record flagged |
| `Answers.MalformedAnswer` | services/engine/src/engine/matcher.rs:222-223 | with all sources there, an error iff some amount text is no decimal, naming the first such source |
| `Answers.ExactAnswer` | services/engine/src/engine/matcher.rs:225-250 | under Exact: a record is flagged iff two present currencies differ or its amount is not the first present one; MISMATCHED iff one is; all records reported, with the reason |
| `Answers.ToleranceAnswer` | services/engine/src/engine/matcher.rs:225-250 | under Tolerance: a record is flagged iff two present currencies differ or its amount is not within tolerance of the first present one; MISMATCHED iff one is; all records reported, with the reason |
| `Answers.MajorityAnswer` | services/engine/src/engine/matcher.rs:225-250 | under Majority, for any first-fit clustering of the amounts: a record is flagged iff two present currencies differ or its bucket is smaller than some other; MISMATCHED iff two currencies or two bucket sizes differ; all records reported, with the reason |
| `Clustering.FirstFitIsFirstFit` | services/engine/src/engine/matcher.rs:446-464 | the buckets partition the records; a record without amount is alone; an amounted one is within tolerance of its head and of no earlier head |
| `Clustering.FirstFitUnique` | services/engine/src/engine/matcher.rs:446-464 | that description determines the buckets |
| `Clustering.MajorityFlagsAre` | services/engine/src/engine/matcher.rs:466-484 | flagged are exactly the records whose bucket is smaller than some other |
| `Clustering.MajorityMatchedIff` | services/engine/src/engine/matcher.rs:466-518 | MATCHED iff all buckets have the same size |
| `Clustering.MajorityOfTwoMatches` | services/engine/src/engine/matcher.rs:466-518 | two sources never mismatch under majority, whatever their amounts |
| `Majority.TwoToOneAnyOrder` | services/engine/src/engine/matcher.rs:466-518 | when two records agree and the third agrees with neither, the split is MISMATCHED and flags the third alone, in every order; contrary to the unit test at lines 638-648 |
| `Clustering.TwoToOneMismatches` | services/engine/src/engine/matcher.rs:466-518 | two amounts within tolerance of each other, and a last one not within tolerance of the first: MISMATCHED with the last flagged, also when the last is within tolerance of the second |
| `Clustering.BucketErrorBound` | services/engine/src/engine/matcher.rs:454-460 | two amounts of one bucket differ by at most twice the tolerance |
| `Majority.BucketIsGroup` | services/engine/src/engine/matcher.rs:446-464 | when tolerance is transitive on the reported amounts, a bucket is exactly a record's group |
| `Majority.MajorityByGroups` | services/engine/src/engine/matcher.rs:442-518 | then MATCHED iff all groups have the same size |
| `Majority.FlaggedBySupport` | services/engine/src/engine/matcher.rs:466-484 | and a record is flagged iff some record has more records within tolerance of it |
| `Majority.MajorityOrderIndependentIff` | services/engine/src/engine/matcher.rs:168-172 | over all records the majority verdict never depends on the order out of the hash map iff the tolerance has no percentage and no positive absolute part, or a percentage from 200% on |
| `Majority.MiddleFirst` | services/engine/src/engine/matcher.rs:446-518 | three amounts of which only the outer two are not within tolerance of each other: MATCHED with the middle one first, MISMATCHED with an outer one first |
| `Majority.MajorityDependsOnOrder` | services/engine/src/engine/matcher.rs:168-172 | a concrete tolerance and three amounts with order-dependent majority verdict |
| `MatcherLaws.CurrencyConflictIff` | services/engine/src/engine/matcher.rs:279-317 | the check fires iff two present currencies differ |
| `MatcherLaws.ExactMatchedIff` | services/engine/src/engine/matcher.rs:320-374 | MATCHED iff all present amounts are equal |
| `MatcherLaws.ToleranceByExtremes` | services/engine/src/engine/matcher.rs:377-435 | against reference r, MATCHED iff the least and the greatest amount are within tolerance of r |
| `MatcherLaws.ExtremesDecideIff` | services/engine/src/engine/matcher.rs:377-435 | over all records this holds iff the percentage is at most 100% or at least 200% |
| `MatcherLaws.MatchedInEveryOrderIff` | services/engine/src/engine/matcher.rs:168-172 | MATCHED under every order iff the extremes are within tolerance of each other |
| `MatcherLaws.SameInEveryOrderIff` | services/engine/src/engine/matcher.rs:377-435 | the same verdict under every order iff the extremes are within tolerance of each other or no reported amount is within tolerance of both |
| `MatcherLaws.ToleranceOrderIndependentIff` | services/engine/src/engine/matcher.rs:377-435 | over all records the tolerance verdict never depends on the order iff the tolerance has no percentage and no positive absolute part, or a percentage from 200% on |
| `MatcherLaws.ToleranceDependsOnOrder` | services/engine/src/engine/matcher.rs:377-435 | concrete records on which the tolerance verdict depends on the order |
| `MatcherLaws.ToleranceErrorBound` | services/engine/src/engine/matcher.rs:389-418 | MATCHED bounds the distance of any two amounts by twice the tolerance |
| `MatcherLaws.ExactImpliesTolerance` | services/engine/src/engine/matcher.rs:320-435 | Exact MATCHED implies Tolerance MATCHED |
| `MatcherLaws.FirstBucketIsScan` | services/engine/src/engine/matcher.rs:389-464 | with all amounts present the first bucket is what the tolerance scan accepts |
| `MatcherLaws.ToleranceIsOneBucket` | services/engine/src/engine/matcher.rs:377-464 | the scan flags the complement of the first bucket and is MATCHED iff there is one bucket |
| `MatcherLaws.ToleranceImpliesMajority` | services/engine/src/engine/matcher.rs:377-518 | Tolerance MATCHED implies Majority MATCHED when all amounts are present |
| `MatcherLaws.FirstSeen` | services/engine/src/engine/worker.rs:150-154 | the earliest arrival among the rows |
| `MatcherLaws.DecidedMonotone` | services/engine/src/engine/matcher.rs:176-220 | more records and later times keep a decision possible |
| `MatcherLaws.PendingIff` | services/engine/src/engine/matcher.rs:176-220 | PENDING iff sources are missing or single and the timeout is not over |
| `MatcherLaws.OnceDecidedNeverPending` | services/engine/src/engine/matcher.rs:158-220 | non-PENDING on some records at some time implies non-PENDING, or an amount error, on any superset later |
| `MatcherLaws.ListingsAgree` | services/engine/src/engine/matcher.rs:166-172 | two orders out of the hash map hold the same records |
| `MatcherLaws.ExactDecision` | services/engine/src/engine/matcher.rs:153-250 | what a listing is answered under Exact, gate by gate |
| `MatcherLaws.ExactOrderIndependent` | services/engine/src/engine/matcher.rs:153-250 | under Exact the status is the same for every order out of the hash map |
| `Backoff.DelayIs` | services/resolution/internal/retry/worker.go:329-337 | delay k is min(base * 2^(k-1), cap); the exponent in the code is attempt - 1, not attempt as the comments say |
| `Backoff.DelayMonotone` | services/resolution/internal/retry/worker.go:329-337 | delays never shrink and never exceed the cap |
| `Backoff.TotalDelayBound` | services/resolution/internal/retry/worker.go:329-337 | the first n delays sum to at most base * (2^n - 1) and n * cap |
| `Database.Database.InsertRecord` | services/ingestion/internal/storage/storage.go:84-91 | appends to one transaction's records, touches no other |
| `Database.Database.SelectRecords` | services/engine/src/db/queries.rs:127-149 | the transaction's records, all of them, ordered by arrival |
| `Database.Database.GetPendingTransactionRefs` | services/engine/src/db/queries.rs:91-122 | the smallest refs that need work, up to the limit |
| `Database.Database.WaitingIff` | services/engine/src/db/queries.rs:96-115 | a ref is among them iff it has a record and no state row, or a row that is PENDING with retries left and never processed or last processed before the cutoff |
| `Database.Database.UpsertReconState` | services/engine/src/db/queries.rs:173-199 | inserts with count 1, or overwrites and counts up; the limit of an existing row stays |
| `Database.Database.UpsertMatchDetail` | services/engine/src/db/queries.rs:230-244 | one row per source, the latest write wins |
| `Database.Database.InsertAuditLog` | services/engine/src/db/queries.rs:271-284 | appends to the shared log |
| `Database.Database.ResetForRetrigger` | services/engine/src/db/queries.rs:381-399 | PENDING, count 0, never processed; nothing when there is no row |
| `Database.Database.UpdateReconStateToResolved` | services/resolution/internal/db/db.go:152-161 | sets RESOLVED without looking at the current status |
| `Database.Database.InsertResolutionRecord` | services/resolution/internal/db/db.go:168-192 | one record per transaction, the latest decision wins |
| `Database.Database.EnqueueRetry` | services/resolution/internal/db/db.go:404-431 | inserts; restarts an EXHAUSTED entry; keeps status and count of any other but updates limit, time and requester |
| `Database.Database.GetPendingRetries` | services/resolution/internal/db/db.go:435-463 | PENDING entries whose due time has come, earliest first, complete up to the limit |
| `Database.Database.DueIff` | services/resolution/internal/db/db.go:435-445 | an entry is due iff it is PENDING and its time is not later than now |
| `Database.Database.IncrementRetryAttempt` | services/resolution/internal/db/db.go:467-483 | counts the attempt and moves the due time |
| `Database.Database.MarkRetryExhausted` | services/resolution/internal/db/db.go:486-495 | sets EXHAUSTED whatever the entry's status |
| `Database.Database.MarkRetryResolved` | services/resolution/internal/db/db.go:498-507 | sets RESOLVED whatever the entry's status |
| `Cases.WriteDetailsAre` | services/engine/src/engine/worker.rs:182-196 | with one result per source the loop writes each of them and no other source |
| `Engine.Engine.ReconcileOne` | services/engine/src/engine/worker.rs:132-226 | reads, matches and writes exactly the one-step effect: nothing without records or on an amount error, else state row, detail rows, audit entry |
| `Engine.Engine.WriteAllDetails` | services/engine/src/engine/worker.rs:182-196 | the detail loop is the fold of the upserts |
| `Engine.Engine.ReconcileAll` | services/engine/src/engine/worker.rs:116-129 | each transaction of the batch is reconciled from its own state, at its own time; failures do not stop the batch |
| `Engine.Engine.ProcessBatch` | services/engine/src/engine/worker.rs:95-129 | one cycle handles the smallest refs waiting at its start, each at its own time, and changes nothing else |
| `Engine.Engine.GetReconState` | services/engine/src/grpc/server.rs:59-96 | reconciles inline iff there is no state row, and returns the row |
| `Engine.Engine.ReTriggerMatch` | services/engine/src/grpc/server.rs:128-168 | reset, audit, reconcile; answers with the new status, or fails |
| `Resolution.ResolutionService.CallEngine` | services/resolution/internal/retry/worker.go:145-156 | the call to the engine when the request or the reply can be lost |
| `Resolution.ResolutionService.Conclude` | services/resolution/internal/retry/worker.go:145-219 | the reaction to every reply, computed from the entry fetched earlier |
| `Resolution.ResolutionService.HandleExhausted` | services/resolution/internal/retry/worker.go:223-289 | EXHAUSTED and its audit entry, then the auto-resolution iff it is switched on and the strategy is valid and picked a source; `Outcomes.ReactionOutcome` says what that leaves |
| `Resolution.ResolutionService.ApplyAutoResolution` | services/resolution/internal/retry/worker.go:275-321 | resolution record, RESOLVED, audit entry, queue entry closed |
| `Resolution.ResolutionService.RetryOne` | services/resolution/internal/retry/worker.go:135-220 | call and reaction together |
| `Resolution.ProcessedIsRetryOne` | services/resolution/internal/retry/worker.go:135-220 | for an entry that has not changed since it was fetched, this is the one-step visit of the protocol |
| `Resolution.ResolutionService.RunCycle` | services/resolution/internal/retry/worker.go:99-132 | a cycle processes the batch due at its start, each entry as fetched and at its own time, and changes nothing else |
| `Resolution.ResolutionService.ResolveManually` | services/resolution/internal/server/server.go:74-142 | done iff the status is MISMATCHED or RESOLVED; then record, status, queue entry and audit entry, else nothing |
| `Resolution.ResolutionService.AutoResolve` | services/resolution/internal/api/handler.go:104-204 | done iff resolvable and the strategy picks a source |
| `Resolution.ResolutionService.EnqueueRetry` | services/resolution/internal/api/handler.go:243-297 | done iff MISMATCHED; a limit that is not positive falls back to the configured one |
| `Outcomes.ReconcileOutcome` | services/engine/src/engine/worker.rs:132-207 | nothing without records or on an amount error; else the state row (status, record count, source lists, count, limit, time), a detail row for every result and no other, and one audit entry, all from the matcher's answer; entry and resolution untouched |
| `Outcomes.RetriggerOutcome` | services/engine/src/grpc/server.rs:128-168 | a reset entry, then an attempt that counts from zero and starts from PENDING; after a failure the row is PENDING, count 0, never processed; the reply in each case |
| `Outcomes.CallOutcome` | services/resolution/internal/engine/client.go:82-94 | a request that is lost changes nothing; a reply that is lost is a failure after the engine has reset, matched and logged; a delivered reply is the status written, or a failure on an amount error |
| `Outcomes.QueryOutcome` | services/engine/src/grpc/server.rs:59-96 | a query changes nothing when there is a row, and makes the first attempt when there is none |
| `Outcomes.ReactionOutcome` | services/resolution/internal/retry/worker.go:145-289 | the worker's reaction to every reply, for the entry it fetched whatever has become of it: how the current entry is counted, marked and rescheduled, what is logged, and that row and resolution stay unless an exhausted entry is auto-resolved |
| `Outcomes.ExhaustedVisit` | services/resolution/internal/retry/worker.go:192-289 | the last attempt answered MISMATCHED ends RESOLVED, entry RESOLVED, with an AUTO record of the picked source iff auto-apply is on, the strategy is valid and a source was picked; otherwise MISMATCHED, entry EXHAUSTED, resolution unchanged |
| `Outcomes.OrdinaryVisit` | services/resolution/internal/retry/worker.go:158-219 | a visit answered MATCHED closes the entry; one answered MISMATCHED with attempts left counts and reschedules it; the resolution stays |
| `Outcomes.ManualOutcome` | services/resolution/internal/server/server.go:74-142 | done iff MISMATCHED or RESOLVED: row RESOLVED, entry closed, the new record in place of any earlier one, one audit entry; else nothing changes |
| `Outcomes.AutoOutcome` | services/resolution/internal/api/handler.go:104-204 | the same with the source a strategy picked; a strategy that fails changes nothing |
| `Outcomes.EnqueueOutcome` | services/resolution/internal/db/db.go:404-431 | done iff MISMATCHED: new limit, requester and due time in every case; a new or an EXHAUSTED entry starts at count 0, any other keeps status and count |
| `Invariants.DecisionReports` | services/engine/src/engine/matcher.rs:320-570 | a decision reports every listed record once, and MATCHED flags none |
| `Invariants.ReconcileAttempts` | services/engine/src/engine/worker.rs:132-207 | one attempt: case unchanged without records or on an amount error, else one more count, one audit entry with the old and the new status, and PENDING iff undecided |
| `Invariants.ReconcileIndexes` | services/engine/src/engine/worker.rs:170-196 | after a decision there is one detail row per source, showing its latest record; the state row's source lists agree with the flags |
| `Invariants.RetriggerKeeps` | services/engine/src/grpc/server.rs:128-168 | a retrigger keeps every invariant, leaves the queue alone, and never answers RESOLVED |
| `Invariants.ResolveKeeps` | services/resolution/internal/server/server.go:84-132 | a resolution keeps every invariant |
| `Invariants.AfterEngineKeeps` | services/resolution/internal/retry/worker.go:145-219 | the retry worker's reaction keeps every invariant |
| `Invariants.EnqueueKeeps` | services/resolution/internal/api/handler.go:255-283 | an enqueue keeps every invariant |
| `Invariants.ActionKeepsSound` | services/resolution/internal/retry/worker.go:99-322 | every operation of every service keeps: RESOLVED has a record and no open queue entry, the log replays to the status, a decision is never undecided, the details agree with the state row, the count respects its limit |
| `Protocol.ReachableStates` | services/engine/src/engine/worker.rs:95-207 | all of this in every state reachable from empty tables |
| `Protocol.RunExtends` | services/ingestion/internal/storage/storage.go:84-91 | records and audit entries are append-only over runs; rows and resolutions do not vanish |
| `Protocol.ResolvedUntouched` | services/engine/src/db/queries.rs:101-112 | neither worker can pick a RESOLVED transaction up, and only an external retrigger changes its row |
| `Protocol.ResolutionIsFinal` | services/resolution/internal/server/server.go:84-119 | over runs: without an external retrigger the row of a RESOLVED transaction stays as it is |
| `Protocol.EngineDecides` | services/resolution/internal/retry/worker.go:158-219 | the engine never answers a retry visit with PENDING, so that branch of the worker is not taken |
| `Protocol.AnsweredVisitProgress` | services/resolution/internal/retry/worker.go:135-219 | an answered visit closes the entry or uses up one of its visits |
| `Protocol.RetryTerminates` | services/resolution/internal/retry/worker.go:135-219 | while an entry stays open and is not enqueued again, fewer than max(1, max_attempts - attempt_count) visits are answered |
| `Protocol.EnoughVisitsClose` | services/resolution/internal/retry/worker.go:135-219 | that many answered visits leave it RESOLVED or EXHAUSTED at the end of the run |
| `Protocol.UnansweredStaysOpen` | services/resolution/internal/retry/worker.go:145-156 | a visit whose call fails, because request or reply is lost or because the engine answers with an error, is counted but never exhausts the entry, whatever its limit |
| `Protocol.VisitClosesIff` | services/resolution/internal/retry/worker.go:145-219 | a visit closes the entry iff the engine answers, and answers MATCHED or the attempts are used up |
| `Protocol.ShutForGood` | services/resolution/internal/db/db.go:415-427 | without an enqueue an entry that is RESOLVED or EXHAUSTED is never open again |
| `Protocol.VisitReschedules` | services/resolution/internal/retry/worker.go:187-190 | a visit that leaves the entry open counts it and moves it by the next delay |
| `Protocol.RetrySpacing` | services/resolution/internal/retry/worker.go:187-190 | over runs the due time moves by at least the delays of the visits |
| `Protocol.AttemptNotBefore` | services/resolution/internal/retry/worker.go:329-337 | attempt n of a fresh entry comes no earlier than the first plus the first n - 1 delays |
| `Protocol.ClosedForGood` | services/resolution/internal/db/db.go:415-427 | a RESOLVED queue entry is never opened again, so later enqueue requests have no effect on retries |
| `Protocol.ReconcileStamps` | services/engine/src/db/queries.rs:173-199 | an attempt records the clock and the number of records |
| `Protocol.WorkerSpacing` | services/engine/src/db/queries.rs:106-112 | without a retrigger in between the worker's attempts on a transaction are more than the flat backoff apart |
| `Protocol.DueAgainIff` | services/engine/src/db/queries.rs:106-112 | the worker ever takes a PENDING transaction up again iff attempts are left |
| `Protocol.StuckForGood` | services/engine/src/db/queries.rs:106-107 | a PENDING transaction with no attempts left and no queue entry stays as it is in every run without an external retrigger, whatever arrives and however long it takes |
| `Escalation.EscalatesIff` | services/engine/src/db/queries.rs:106-112 | over all runs whose records do not arrive in the future: no PENDING transaction without queue entry ever runs out of attempts iff attempts are configured and the last of them, a backoff and a millisecond after another, comes no earlier than the pending timeout |
| `Escalation.Escalates` | services/engine/src/engine/matcher.rs:176-220 | under that condition the promise holds: in every reachable state with a PENDING transaction, some later poll takes it up and finds it decided |
| `Escalation.GivesUp` | services/engine/src/db/queries.rs:106-112 | for every other configuration with a timeout, a run of ingest and polls alone that uses up the attempts before the timeout |
| `Escalation.ShippedDefaultsGiveUp` | services/engine/config/default.toml:49-58 | three attempts, 30 seconds apart, against a timeout of 300 seconds: the shipped configuration fails it |
| `Protocol.FailedVisitRepeats` | services/engine/src/engine/worker.rs:155-160 | a visit that fails on an amount changes nothing and the transaction stays due, without limit |
| `Protocol.WorkShrinks` | services/engine/src/engine/worker.rs:95-129 | every successful worker attempt spends work, and no operation but a retrigger or a first record adds any |
| `Protocol.WorkerTerminates` | services/engine/src/db/queries.rs:96-115 | the number of worker attempts is bounded by the sum over refs of max(1, max_retries), or of what is left of it |
| `Audit.LogExplainsStatus` | services/engine/src/engine/worker.rs:198-207 | each entry that tells the old status tells the one the log reported last (the first attempt none), and a RESOLVED transaction's last entry names the kind of its resolution |
| `Audit.RetryResolvedBreaksTheChain` | services/resolution/internal/retry/worker.go:172-176 | RETRY_RESOLVED always says MISMATCHED was before, although the engine has already logged the new status |
| `Audit.NoEntryAppears` | services/resolution/internal/api/handler.go:255-263 | only an enqueue of a MISMATCHED transaction creates a queue entry |
| `Interleaving.AnyInterleavingIsSafe` | services/resolution/internal/server/server.go:96-110 | under any interleaving, failures, timeouts and crashes: RESOLVED has a resolution record, every detail row shows a stored record of its source, and whatever shows a decision is backed by the records |
| `Interleaving.LaterReadsDecide` | services/engine/src/engine/matcher.rs:176-220 | no match that reads the records after a decision became visible answers PENDING |
| `Interleaving.RunGrows` | services/engine/src/db/queries.rs:263-284 | records and log are append-only statement by statement |
| `Interleaving.ResolveCovered` | services/resolution/internal/retry/worker.go:298-310 | the record is written before the status, which is what the crash safety rests on |
| `Interleaving.ExecOk` | services/engine/src/engine/worker.rs:132-207 | one statement of one client keeps the tables and its remaining program in order |
| `Interleaving.FailOk` | services/engine/src/grpc/server.rs:132-145 | so does a statement that fails, with or without having taken effect |
| `Interleaving.DetachOk` | services/resolution/internal/engine/client.go:82-94 | so does a retry worker that stops waiting for the engine |
| `Refinement.RunReconcile` | services/engine/src/engine/worker.rs:132-207 | the statements of `reconcile_one`, undisturbed, are the one-step operation |
| `Refinement.RunEngineCall` | services/resolution/internal/retry/worker.go:135-220 | the statements of a retry visit, undisturbed, are the one-step visit, also when request or reply is lost |
| `Refinement.AloneIsAtomic` | services/engine/src/grpc/server.rs:108-168 | every operation's program, undisturbed, has its one-step effect |
| `Refinement.OperationSteps` | services/engine/src/grpc/server.rs:108-168 | from any state an operation can start and run undisturbed to that effect |
| `Refinement.AtomicRunEmbeds` | services/resolution/internal/retry/worker.go:99-132 | every run of whole operations is also a run of single statements with the same tables |
| `Finality.FinalIff` | services/resolution/internal/db/db.go:152-161 | finality, exactly: a RESOLVED transaction stays RESOLVED in every interleaving without an external retrigger iff its queue entry is not open, no client on it holds a reset, a read of a match, a match that will get past the parsing or the upsert of a state row, and, if one holds an enqueue, the entry is RESOLVED and nobody is about to mark it EXHAUSTED |
| `Finality.ReachedFinalIff` | services/resolution/internal/retry/worker.go:106-130 | the same in every state that any interleaving reaches from empty tables |
| `Finality.LoseAlone` | services/engine/src/grpc/server.rs:128-168 | a client that holds such a line, left to itself, takes the transaction out of RESOLVED, once every source has reported anew |
| `Finality.FinalExactlyWhenNotQueued` | services/resolution/internal/retry/worker.go:106-130 | with no engine or queue operation in flight only the queue entry matters: it stays RESOLVED iff the entry is not open |
| `Races.OverlapReopens` | services/resolution/internal/api/handler.go:255-270 | an enqueue that read MISMATCHED before a resolution and writes after it opens an entry for the resolved transaction |
| `Races.ResolutionLost` | services/resolution/internal/db/db.go:152-161 | so for every MISMATCHED transaction without entry there is an overlap that loses its resolution, without failures and without an external retrigger |
| `Races.SilentResolution` | services/resolution/internal/server/server.go:121-132 | from every MISMATCHED transaction whose log replays: a resolution whose audit write fails ends RESOLVED and leaves no trace in the log |
| `ResolutionAudit.ResolutionReplaysIff` | services/resolution/internal/server/server.go:84-132 | exactly when the log still replays after a resolution that nobody overtakes, whatever fails in it: iff its audit line took effect, or the status update did not, or the transaction was RESOLVED before |
| `HalfWritten.ReplayLost` | services/engine/src/engine/worker.rs:170-207 | for every new transaction that its next record would decide: one match writes its PENDING row, a second match decides and logs it, the first logs PENDING; the row is decided and the log ends in PENDING, although nothing fails |
| `ResolutionAudit.AutoApplyReplaysIff` | services/resolution/internal/retry/worker.go:298-321 | the same for the retry worker's resolution after exhaustion |
| `ResolutionAudit.ResetReplaysIff` | services/engine/src/grpc/server.rs:132-145 | the reset of a retrigger and its audit line, up to the match that follows: once the reset has taken effect, the log replays iff the audit line has too or the log told PENDING before; otherwise iff it replayed before |
| `ResolutionAudit.MatchReplaysIff` | services/engine/src/engine/worker.rs:170-207 | exactly when the log replays after the writes of a match that nobody overtakes, whatever fails in them: once the state row has taken effect, iff the audit line has too or the log told that status before; otherwise iff it replayed before |
| `HalfWritten.IndexLost` | services/engine/src/engine/worker.rs:170-196 | for every new transaction whose match reports something its detail rows do not show: a crash after the state row leaves source lists that the detail rows do not bear out |
| `HalfWritten.MatchedUnshown` | services/engine/src/engine/worker.rs:170-196 | every first MATCHED is such a match |
| `HalfWritten.IndexedIff` | services/engine/src/engine/worker.rs:170-196 | exactly when a match that nobody overtakes leaves source lists and detail rows in agreement: iff its state row did not take effect, or the detail row of every result did or agreed already |
| `Counting.RunSevere` | services/engine/src/grpc/server.rs:132-145 | in every reachable state the failure of a client's statement is ignored if it is an audit entry other than that of a match or closes a queue entry, and that of any other, but the worker's count of an attempt, ends its program |
| `Statements.DetachSplits` | services/resolution/internal/engine/client.go:82-94 | a worker that stops waiting reacts to an error, and all the engine's statements of its call go on |
| `Counting.CountReached` | services/engine/src/db/queries.rs:173-199 | for every n, n overlapping matches of a new transaction leave the attempt counter at n, whatever the limit |
| `Counting.CountBound` | services/engine/src/db/queries.rs:91-122 | under any interleaving, failures and crashes: with at most n matches of a transaction in flight at a time its counter stays within max(1, max_retries) + n - 1 |
| `Races.DecisionUndone` | services/engine/src/engine/worker.rs:150-180 | two overlapping matches of a new transaction: the one that read first writes last and takes it from a decision back to PENDING |
| `Survival.DecisionsSurviveIff` | services/engine/src/engine/worker.rs:150-207 | exactly when this cannot happen: with decided records, no run logs another PENDING attempt iff no client on the transaction holds a match on an undecided reading or the unwritten audit line of a PENDING match |
| `Survival.VisibleDecisionSurvivesIff` | services/engine/src/engine/worker.rs:150-207 | the same in every state that any interleaving reaches and that shows a decision |
| `Survival.PendingRun` | services/engine/src/engine/worker.rs:132-207 | a client that holds such a match, left to itself, logs the PENDING attempt |
| `Races.TwoSourcesExample` | services/engine/src/engine/matcher.rs:176-220 | concrete transactions of which the hypotheses of DecisionUndone hold |
| `Ingestion.RecordTable.Insert` | services/ingestion/internal/storage/storage.go:84-91 | inserts unless the key is there (the comment above it promises an error) |
| `Ingestion.IdempotencyTable.Get` | services/ingestion/internal/idempotency/idempotency.go:65-83 | the cached id unless absent or expired |
| `Ingestion.IdempotencyTable.Set` | services/ingestion/internal/idempotency/idempotency.go:87-100 | inserts unless a row, even an expired one, is there |
| `Ingestion.IdempotencyTable.Purge` | services/ingestion/internal/idempotency/idempotency.go:103-110 | deletes exactly the expired rows and counts them |
| `Ingestion.IngestionServer.SubmitRecord` | services/ingestion/internal/server/server.go:71-183 | the reply case by case: limited iff over the limit, else the cached id iff the cache is readable and has a live row, else rejected iff not valid, a storage error iff the insert fails, and otherwise success with a fresh id whether or not it could be cached; and the two tables after it |
| `Ingestion.SubmitIs` | services/ingestion/internal/server/server.go:71-183 | the same of the function that the bulk stream and the histories fold |
| `Ingestion.IngestionServer.BulkStreamIngest` | services/ingestion/internal/server/server.go:189-239 | the fold of the submissions; processed are the successes, and processed + failed = received |
| `Ingestion.BulkStep` | services/ingestion/internal/server/server.go:189-239 | one request more is one submission more on the tables so far, and one success more iff its reply is one |
| `Ingestion.StoreIsFirstAccepted` | services/ingestion/internal/server/server.go:149-173 | whatever the cache does, the record table is the fold of the accepted requests in which the first one per key wins |
| `Ingestion.FirstAcceptedWins` | services/ingestion/internal/storage/storage.go:84-91 | that fold holds exactly the first accepted request of every key |
| `Ingestion.SubmitBacked` | services/ingestion/internal/server/server.go:149-173 | every cached key and every success has a stored record |
| `Replay.SuccessNamesStored` | services/ingestion/internal/server/server.go:93-103 | a success names the stored record iff the key is new or its cached reply is readable and not expired; otherwise the id is stored nowhere |
| `Replay.SameIdReplay` | services/ingestion/internal/idempotency/idempotency.go:65-100 | over every history of submissions and purges |
| `Replay.HistoryConsistent` | services/ingestion/internal/idempotency/idempotency.go:87-110 | the invariant behind it: until its lifetime ends a record's id is cached, and a cached row with that id expires with it |
| `Replay.HistoryStore` | services/ingestion/internal/storage/storage.go:84-91 | the record table over a history is the first-accepted-wins fold, whatever is purged or expires |
| `IngestionRaces.AnyInterleaving` | services/ingestion/internal/server/server.go:93-173 | under any interleaving, failure, crash and purge: one record per key, as submitted and accepted; every cached reply and every success belongs to a key with a stored record and names an id handed out for that key |
| `IngestionRaces.FirstInsertWins` | services/ingestion/internal/storage/storage.go:84-91 | stored records are never removed, changed or reordered |
| `IngestionRaces.AloneIsSubmit` | services/ingestion/internal/server/server.go:71-183 | the statements of a submission that nobody overlaps have the reply and the tables of one whole submission, with any of its failures |
| `IngestionRaces.TwoIdsForOneKey` | services/ingestion/internal/server/server.go:93-173 | for every new key two overlapping submissions can both succeed under different ids, only one of them stored |
| `IngestionRaces.SuccessNamesStoredIff` | services/ingestion/internal/server/server.go:93-173 | over all interleavings, failures and purges: a success names the client's own id or that of a client that wrote the cache before it was read, and this id is the stored one iff the insert of the client it was handed to found the key absent |
| `Paging.SelectPage` | services/resolution/internal/db/db.go:284-334 | ascending, smallest first, short only when nothing is left |
| `Paging.PageUnique` | services/resolution/internal/db/db.go:284-334 | table, cursor and limit determine the page |
| `Paging.WalkAscends` | services/resolution/internal/api/handler.go:482-485 | following the last ref as token lists strictly increasing refs, each from its page's table |
| `Paging.NothingSkipped` | services/resolution/internal/db/db.go:290-298 | a ref that is in the table throughout a walk ending in an empty page is listed |
| `Paging.ExactlyOnce` | services/resolution/internal/api/handler.go:482-485 | and listed exactly once, although the table changes between pages |
| `Paging.FixedWalkIsTable` | services/resolution/internal/db/db.go:284-334 | on a fixed table a complete walk lists the whole table in order |
| `Paging.FixedWalkEnds` | services/resolution/internal/db/db.go:284-334 | and ends: it has at most one page more than the table has rows |
| `Paging.FixedPagesFull` | services/resolution/internal/db/db.go:284-334 | every page but the last one with rows is full |
| `Paging.Assemble` | services/resolution/internal/db/db.go:373-393 | each row of the page gets the scanned details of its own ref, in scan order |
| `Paging.MismatchListedOnce` | services/resolution/internal/db/db.go:284-334 | a transaction that stays MISMATCHED, and keeps the filtered source, throughout a complete walk over a changing table is listed exactly once |
| `Paging.ListedWasMismatch` | services/resolution/internal/db/db.go:284-334 | and whatever a walk lists was MISMATCHED, with the filtered source, when its page was read |
| `Paging.DetailsOfOne` | services/resolution/internal/db/db.go:373-393 | a scanned detail goes to its own ref alone |
| `Paging.DetailsJoin` | services/resolution/internal/db/db.go:373-393 | the details of a ref come in scan order |
| `Database.Database.ListMismatched` | services/resolution/internal/db/db.go:268-395 | in ascending order only refs whose row is MISMATCHED, behind the token, with a detail row of the filtered source; every such ref not listed lies behind a full page, of 20 unless a size from 1 to 100 is asked for; each with exactly its own detail rows |

## Left out

- Gateway, authentication, health checks, gRPC and HTTP wiring, configuration loading, metrics, logging and generated protobuf code: no behaviour of their own on the tables.
- The `active_mismatches` gauge: it does not count the open mismatches, because a retrigger resets the old status before the match.
- `resolved_at`, `created_at`, `updated_at` and `processed_at`: no decision reads them.
- Resolver strategies: a strategy fails or picks a source; two of its queries name a column that the detail table does not have.
- Pagination of the retry queue: it orders by due time but cuts by ref, so it does not cover the queue.
- The stages of the ingestion pipeline, the adapters, the dead-letter table and the rate limiter: one accept or reject, and one flag, per request.
- `ingestion_records.status` and its propagation by the engine: nothing reads it back.
- JSON payloads, reference amounts and reasons in audit details; discrepancy details.
- Decimal precision and overflow, float rendering beyond ten decimals, 32-bit counters, SQL collation: exact numbers and total orders instead. Percentages that are not a multiple of 10^-10 as a fraction are those the engine rounds them to.
- Request validation (empty or unprintable refs, missing fields): such requests change nothing.
- The order of audit entries of different transactions, and ties of `created_at` within one: the log is in insertion order.
- The link between the ingestion tables and the engine's records: `Protocol` and `Statements` let any record arrive at any time, which includes what idempotent ingestion lets through.
- Database.Database.SelectRecords: the order of records that arrived in the same instant is left open, as in the query.
- Database.Database.GetPendingRetries: the order of entries due at the same instant is left open, as in the query.
- Engine.Engine.ReconcileOne: one clock reading per transaction it handles; the statement-level model reads the clock at every statement.
- Replay.SuccessNamesStored: assumes that the reply was cached and that an insert reported as failed did not happen; `IngestionRaces.SuccessNamesStoredIff` assumes neither.
