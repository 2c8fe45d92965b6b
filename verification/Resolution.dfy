/** The resolution service: retry worker and resolve handlers
    (services/resolution/internal/retry/worker.go, .../server/server.go, .../api/handler.go). */
module Resolution {
  import opened Wrappers
  import opened Rules
  import opened Matcher
  import opened Cases
  import opened Backoff
  import opened Transitions
  import opened Database
  import Engine

  datatype Answer = NotFound | Conflict(status: Status) | StrategyFailed | Done

  /** Processing `entry`, fetched earlier, took the case from c to d. */
  ghost predicate Processed(c: Case, d: Case, cfg: Config, entry: QueueRow, rpc: Rpc, rd: Reading,
                            picked: Option<Source>, now: int) {
    && (rpc != Unreached ==> IsReading(rd, c.records))
    && var called := EngineCall(c, cfg.rules, rpc, rd, now);
      d == AfterEngine(called.c, cfg, entry, called.reply, picked, now)
  }

  /** With the entry that the case still has, that is the one-step visit. */
  lemma ProcessedIsRetryOne(c: Case, d: Case, cfg: Config, rpc: Rpc, rd: Reading, picked: Option<Source>, now: int)
    requires c.entry.Some? && Processed(c, d, cfg, c.entry.value, rpc, rd, picked, now)
    ensures d == Transitions.RetryOne(c, cfg, rpc, rd, picked, now)
  {}

  class ResolutionService {
    const db: Database
    const engine: Engine.Engine
    const cfg: Config
    const batchSize: nat
    const maxAttempts: int

    constructor (engine: Engine.Engine, cfg: Config, batchSize: nat, maxAttempts: int)
      requires engine.rules == cfg.rules
      ensures Wired() && this.engine == engine && this.cfg == cfg
      ensures this.batchSize == batchSize && this.maxAttempts == maxAttempts
    {
      this.db, this.engine, this.cfg := engine.db, engine, cfg;
      this.batchSize, this.maxAttempts := batchSize, maxAttempts;
    }

    predicate Wired() { engine.db == db && engine.rules == cfg.rules }

    // -------------------------------------------------------------- retry worker

    /** Call the engine over a network that may lose the request or the reply. */
    method CallEngine(ref: Ref, rpc: Rpc, now: int) returns (reply: EngineReply, ghost rd: Reading)
      requires Wired()
      modifies db
      ensures rpc != Unreached ==> IsReading(rd, old(db.At(ref)).records)
      ensures Retriggered(db.At(ref), reply) == EngineCall(old(db.At(ref)), cfg.rules, rpc, rd, now)
      ensures db.Only(ref)
    {
      if rpc == Unreached { return Failed, Reading([], []); }
      reply, rd := engine.ReTriggerMatch(ref, now);
      if rpc == ReplyLost { reply := Failed; }
    }

    method ApplyAutoResolution(ref: Ref, chosen: Source)
      modifies db
      ensures db.At(ref) == Transitions.ApplyAutoResolution(old(db.At(ref)), chosen) && db.Only(ref)
    {
      db.InsertResolutionRecord(ref, ResolutionRow(AUTO, chosen, RETRY_WORKER));
      db.UpdateReconStateToResolved(ref);
      db.InsertAuditLog(ref, AuditEntry(AUTO_RESOLUTION, Was(MISMATCHED), RESOLVED));
      db.MarkRetryResolved(ref);
    }

    method HandleExhausted(ref: Ref, picked: Option<Source>)
      modifies db
      ensures db.At(ref) == Transitions.HandleExhausted(old(db.At(ref)), cfg, picked) && db.Only(ref)
    {
      db.MarkRetryExhausted(ref);
      db.InsertAuditLog(ref, AuditEntry(RETRY_EXHAUSTED, Was(MISMATCHED), MISMATCHED));
      if cfg.autoApplyOnExhaustion {
        if cfg.defaultStrategyValid && picked.Some? { ApplyAutoResolution(ref, picked.value); }
      }
    }

    /** React to the engine's reply for an entry fetched earlier. */
    method Conclude(ref: Ref, entry: QueueRow, reply: EngineReply, picked: Option<Source>, now: int)
      modifies db
      ensures db.At(ref) == AfterEngine(old(db.At(ref)), cfg, entry, reply, picked, now) && db.Only(ref)
    {
      var attempt := entry.attemptCount + 1;
      if reply.Failed? {
        db.IncrementRetryAttempt(ref, NextRetryTime(cfg.retry, attempt, now), now);
        db.InsertAuditLog(ref, AuditEntry(RETRY_ENGINE_ERROR, Was(MISMATCHED), MISMATCHED));
        return;
      }
      match reply.status {
        case PENDING =>
          db.IncrementRetryAttempt(ref, NextRetryTime(cfg.retry, attempt, now), now);
        case MISMATCHED =>
          if attempt >= entry.maxAttempts {
            HandleExhausted(ref, picked);
          } else {
            db.IncrementRetryAttempt(ref, NextRetryTime(cfg.retry, attempt, now), now);
            db.InsertAuditLog(ref, AuditEntry(RETRY_ATTEMPT, Was(MISMATCHED), MISMATCHED));
          }
        case _ =>
          db.MarkRetryResolved(ref);
          db.InsertAuditLog(ref, AuditEntry(RETRY_RESOLVED, Was(MISMATCHED), reply.status));
      }
    }

    /** Process one fetched entry. */
    method RetryOne(ref: Ref, entry: QueueRow, rpc: Rpc, picked: Option<Source>, now: int) returns (ghost rd: Reading)
      requires Wired()
      modifies db
      ensures Processed(old(db.At(ref)), db.At(ref), cfg, entry, rpc, rd, picked, now) && db.Only(ref)
    {
      var reply;
      reply, rd := CallEngine(ref, rpc, now);
      Conclude(ref, entry, reply, picked, now);
    }

    /** Process the fetched entries one by one, entry i at time `clock(i)`, with the network behaviour
        and the resolver's choice that the environment has for each transaction. */
    method RetryAll(refs: seq<Ref>, entries: seq<QueueRow>, clock: nat -> int,
                    network: Ref -> Rpc, picks: Ref -> Option<Source>)
      returns (ghost readings: seq<Reading>)
      requires Wired() && Engine.Distinct(refs) && |entries| == |refs|
      modifies db
      ensures |readings| == |refs|
      ensures forall i :: 0 <= i < |refs| ==>
        Processed(old(db.At(refs[i])), db.At(refs[i]), cfg, entries[i],
                  network(refs[i]), readings[i], picks(refs[i]), clock(i))
      ensures forall r :: r !in refs ==> db.At(r) == old(db.At(r))
    {
      readings := [];
      hide Processed;
      for n := 0 to |refs|
        invariant |readings| == n
        invariant forall i :: 0 <= i < n ==>
          Processed(old(db.At(refs[i])), db.At(refs[i]), cfg, entries[i],
                    network(refs[i]), readings[i], picks(refs[i]), clock(i))
        invariant forall r :: r !in refs[..n] ==> db.At(r) == old(db.At(r))
      {
        assert refs[n] !in refs[..n];
        ghost var rd := RetryOne(refs[n], entries[n], network(refs[n]), picks(refs[n]), clock(n));
        readings := readings + [rd];
        assert refs[..n + 1] == refs[..n] + [refs[n]];
      }
      assert refs[..|refs|] == refs;
    }

    /** One cycle: fetch the entries due at `now`, then process them, each at its own time. */
    method RunCycle(now: int, clock: nat -> int, network: Ref -> Rpc, picks: Ref -> Option<Source>)
      returns (ghost batch: seq<Ref>, ghost readings: seq<Reading>)
      requires Wired()
      modifies db
      ensures old(db.DueBatch(now, batchSize, batch)) && |readings| == |batch|
      ensures forall i :: 0 <= i < |batch| ==>
        && old(db.At(batch[i])).entry.Some?
        && Processed(old(db.At(batch[i])), db.At(batch[i]), cfg, old(db.At(batch[i])).entry.value,
                     network(batch[i]), readings[i], picks(batch[i]), clock(i))
      ensures forall r :: r !in batch ==> db.At(r) == old(db.At(r))
    {
      var refs, entries := db.GetPendingRetries(now, batchSize);
      batch := refs;
      hide Processed, Due;
      readings := RetryAll(refs, entries, clock, network, picks);
    }

    // -------------------------------------------------------------- handlers

    /** Only MISMATCHED and, again, RESOLVED transactions can be resolved by hand. */
    method ResolveManually(ref: Ref, chosen: Source, resolver: nat) returns (answer: Answer)
      modifies db
      ensures var c := old(db.At(ref));
        && (answer == Done <==> Resolvable(c))
        && (answer == NotFound <==> c.row.None?)
        && (answer.Conflict? <==> c.HasStatus(PENDING) || c.HasStatus(MATCHED))
        && (answer.Conflict? ==> c.HasStatus(answer.status))
        && db.At(ref) == if Resolvable(c) then Resolve(c, ResolutionRow(MANUAL, chosen, resolver)) else c
      ensures db.Only(ref)
    {
      var row := db.GetReconState(ref);
      if row.None? { return NotFound; }
      if row.value.status == PENDING || row.value.status == MATCHED { return Conflict(row.value.status); }
      db.InsertResolutionRecord(ref, ResolutionRow(MANUAL, chosen, resolver));
      db.UpdateReconStateToResolved(ref);
      db.MarkRetryResolved(ref);
      db.InsertAuditLog(ref, AuditEntry(MANUAL_RESOLUTION, Was(row.value.status), RESOLVED));
      return Done;
    }

    /** The strategy fails or picks a source. */
    method AutoResolve(ref: Ref, picked: Option<Source>, resolver: nat) returns (answer: Answer)
      modifies db
      ensures var c := old(db.At(ref));
        && (answer == Done <==> Resolvable(c) && picked.Some?)
        && (answer == NotFound <==> c.row.None?) && (answer == StrategyFailed <==> Resolvable(c) && picked.None?)
        && (answer.Conflict? ==> c.HasStatus(answer.status) && !Resolvable(c))
        && db.At(ref) == if Resolvable(c) && picked.Some? then Resolve(c, ResolutionRow(AUTO, picked.value, resolver)) else c
      ensures db.Only(ref)
    {
      var row := db.GetReconState(ref);
      if row.None? { return NotFound; }
      if row.value.status == PENDING || row.value.status == MATCHED { return Conflict(row.value.status); }
      if picked.None? { return StrategyFailed; }
      db.InsertResolutionRecord(ref, ResolutionRow(AUTO, picked.value, resolver));
      db.UpdateReconStateToResolved(ref);
      db.MarkRetryResolved(ref);
      db.InsertAuditLog(ref, AuditEntry(AUTO_RESOLUTION, Was(row.value.status), RESOLVED));
      return Done;
    }

    /** Limits that are not positive fall back to the configured one. */
    method EnqueueRetry(ref: Ref, requested: int, requestedBy: nat, now: int) returns (answer: Answer)
      modifies db
      ensures var c := old(db.At(ref));
        && (answer == Done <==> c.HasStatus(MISMATCHED)) && (answer == NotFound <==> c.row.None?)
        && (answer.Conflict? <==> c.row.Some? && !c.HasStatus(MISMATCHED))
        && (answer.Conflict? ==> c.HasStatus(answer.status))
        && db.At(ref) == if c.HasStatus(MISMATCHED)
                         then Enqueue(c, if requested <= 0 then maxAttempts else requested, requestedBy, now) else c
      ensures db.Only(ref)
    {
      var row := db.GetReconState(ref);
      if row.None? { return NotFound; }
      if row.value.status != MISMATCHED { return Conflict(row.value.status); }
      db.EnqueueRetry(ref, if requested <= 0 then maxAttempts else requested, requestedBy, now);
      db.InsertAuditLog(ref, AuditEntry(RETRY_ENQUEUED, Was(row.value.status), row.value.status));
      return Done;
    }
  }
}
