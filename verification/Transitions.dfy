/** What each service operation does to one transaction's case when nothing runs in between
    (services/engine/src/engine/worker.rs, services/engine/src/grpc/server.rs,
    services/resolution/internal/retry/worker.go, .../server/server.go, .../api/handler.go). */
module Transitions {
  import opened Wrappers
  import opened Rules
  import opened Matcher
  import opened MatcherLaws
  import opened Cases
  import opened Backoff

  datatype Config = Config(
    rules: RuleSet,
    retryBackoffSecs: nat,       // engine: flat wait between polls of a PENDING transaction
    retry: RetryConfig,          // resolution: backoff of the retry queue
    autoApplyOnExhaustion: bool,
    defaultStrategyValid: bool)

  // ---------------------------------------------------------------- engine

  datatype Reconciled = Reconciled(c: Case, failed: bool)

  function StatusBefore(c: Case): OldStatus {
    if c.row.None? then NewTransaction else Was(c.row.value.status)
  }

  function ReconcileOne(c: Case, rules: RuleSet, rd: Reading, now: int): Reconciled {
    if rd.rows == [] then Reconciled(c, false) else
    match Decide(rd.unique, rules, FirstSeen(rd.rows), now)
    case InvalidAmount(_) => Reconciled(c, true)
    case Ok(o) => Reconciled(Persist(c, o, |rd.rows|, rules.maxRetries, now), false)
  }

  /** State row, detail rows, audit entry. */
  function Persist(c: Case, o: Outcome, recordCount: nat, maxRetries: int, now: int): Case {
    var stated := c.UpsertReconState(o.Status(), recordCount, o.MatchedSources(), o.MismatchedSources(), maxRetries, now);
    WriteDetails(stated, o.Results()).AppendAudit(AuditEntry(MATCH_ATTEMPT, StatusBefore(c), o.Status()))
  }

  /** The polling query's WHERE clause for one ref. */
  predicate NeedsWork(c: Case, cutoff: int) {
    && c.records != []
    && (c.row.None? ||
        (&& c.row.value.status == PENDING
         && c.row.value.retryCount < c.row.value.maxRetries
         && (c.row.value.lastProcessedAt.None? || c.row.value.lastProcessedAt.value < cutoff)))
  }

  function BackoffCutoff(cfg: Config, now: int): int { now - 1000 * cfg.retryBackoffSecs }

  function GetReconState(c: Case, rules: RuleSet, rd: Reading, now: int): Case {
    if c.row.None? then ReconcileOne(c, rules, rd, now).c else c
  }

  datatype EngineReply = Failed | Answer(status: Status)

  datatype Retriggered = Retriggered(c: Case, reply: EngineReply)

  function ResetCase(c: Case): Case {
    c.ResetForRetrigger().AppendAudit(AuditEntry(RETRIGGER, Null, PENDING))
  }

  function ReTriggerMatch(c: Case, rules: RuleSet, rd: Reading, now: int): Retriggered {
    var r := ReconcileOne(ResetCase(c), rules, rd, now);
    if r.failed || r.c.row.None? then Retriggered(r.c, Failed)
    else Retriggered(r.c, Answer(r.c.row.value.status))
  }

  // ---------------------------------------------------------------- retry worker

  /** How the worker's engine call can go wrong: the engine is never reached, or it finishes
      but its answer is lost. */
  datatype Rpc = Delivered | Unreached | ReplyLost

  function EngineCall(c: Case, rules: RuleSet, rpc: Rpc, rd: Reading, now: int): Retriggered {
    match rpc
    case Unreached => Retriggered(c, Failed)
    case ReplyLost => Retriggered(ReTriggerMatch(c, rules, rd, now).c, Failed)
    case Delivered => ReTriggerMatch(c, rules, rd, now)
  }

  /** Resolver id the worker signs with, `system:retry_worker`. */
  const RETRY_WORKER: nat := 0

  /** Auto-resolution after exhaustion: resolution row, state row, audit entry, queue entry. */
  function ApplyAutoResolution(c: Case, chosen: Source): Case {
    c.InsertResolution(ResolutionRow(AUTO, chosen, RETRY_WORKER))
     .UpdateToResolved()
     .AppendAudit(AuditEntry(AUTO_RESOLUTION, Was(MISMATCHED), RESOLVED))
     .MarkRetry(DONE)
  }

  function HandleExhausted(c: Case, cfg: Config, picked: Option<Source>): Case {
    var marked := c.MarkRetry(EXHAUSTED).AppendAudit(AuditEntry(RETRY_EXHAUSTED, Was(MISMATCHED), MISMATCHED));
    if cfg.autoApplyOnExhaustion && cfg.defaultStrategyValid && picked.Some?
    then ApplyAutoResolution(marked, picked.value) else marked
  }

  /** The worker's reaction to the engine's reply for a fetched entry. */
  function AfterEngine(c: Case, cfg: Config, fetched: QueueRow, reply: EngineReply, picked: Option<Source>, now: int): Case {
    var attempt := fetched.attemptCount + 1;
    var next := NextRetryTime(cfg.retry, attempt, now);
    match reply
    case Failed =>
      c.IncrementRetryAttempt(next, now).AppendAudit(AuditEntry(RETRY_ENGINE_ERROR, Was(MISMATCHED), MISMATCHED))
    case Answer(s) =>
      match s
      case MATCHED => c.MarkRetry(DONE).AppendAudit(AuditEntry(RETRY_RESOLVED, Was(MISMATCHED), MATCHED))
      case RESOLVED => c.MarkRetry(DONE).AppendAudit(AuditEntry(RETRY_RESOLVED, Was(MISMATCHED), RESOLVED))
      case MISMATCHED =>
        if attempt >= fetched.maxAttempts then HandleExhausted(c, cfg, picked)
        else c.IncrementRetryAttempt(next, now).AppendAudit(AuditEntry(RETRY_ATTEMPT, Was(MISMATCHED), MISMATCHED))
      case PENDING => c.IncrementRetryAttempt(next, now)
  }

  /** `retryOne` for an entry fetched from the case itself. */
  function RetryOne(c: Case, cfg: Config, rpc: Rpc, rd: Reading, picked: Option<Source>, now: int): Case
    requires c.entry.Some?
  {
    var called := EngineCall(c, cfg.rules, rpc, rd, now);
    AfterEngine(called.c, cfg, c.entry.value, called.reply, picked, now)
  }

  predicate Due(c: Case, now: int) { c.Queued() && c.entry.value.nextRetryAt <= now }

  // ---------------------------------------------------------------- resolution handlers

  predicate Resolvable(c: Case) { c.HasStatus(MISMATCHED) || c.HasStatus(RESOLVED) }

  /** The writes shared by `ResolveManually` and `autoResolve`, in their order. */
  function Resolve(c: Case, r: ResolutionRow): Case
    requires Resolvable(c)
  {
    c.InsertResolution(r)
     .UpdateToResolved()
     .MarkRetry(DONE)
     .AppendAudit(AuditEntry(if r.kind == MANUAL then MANUAL_RESOLUTION else AUTO_RESOLUTION, StatusBefore(c), RESOLVED))
  }

  function Enqueue(c: Case, maxAttempts: int, requestedBy: nat, now: int): Case
    requires c.HasStatus(MISMATCHED)
  {
    c.EnqueueRetry(maxAttempts, requestedBy, now)
     .AppendAudit(AuditEntry(RETRY_ENQUEUED, StatusBefore(c), c.row.value.status))
  }
}
