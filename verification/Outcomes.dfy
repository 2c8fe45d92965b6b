/** What each operation leaves of a transaction's rows, field by field
    (services/engine/src/engine/worker.rs, services/engine/src/grpc/server.rs,
    services/resolution/internal/retry/worker.go, .../server/server.go, .../api/handler.go). */
module Outcomes {
  import opened Wrappers
  import opened Rules
  import opened Matcher
  import opened MatcherLaws
  import opened Cases
  import opened Backoff
  import opened Transitions
  import opened Invariants
  import Protocol

  // ---------------------------------------------------------------- parts that stay

  predicate SameRecords(c: Case, d: Case) { d.records == c.records && d.details == c.details }

  /** The queue entry, if there is one, changes its status and nothing else. */
  predicate EntryMarked(c: Case, d: Case, s: QueueStatus) {
    (c.entry.None? <==> d.entry.None?)
    && (c.entry.Some? ==>
      && d.entry.value.status == s && d.entry.value.attemptCount == c.entry.value.attemptCount
      && d.entry.value.maxAttempts == c.entry.value.maxAttempts
      && d.entry.value.lastAttemptedAt == c.entry.value.lastAttemptedAt
      && d.entry.value.nextRetryAt == c.entry.value.nextRetryAt
      && d.entry.value.requestedBy == c.entry.value.requestedBy)
  }

  /** The queue entry, if there is one, counts an attempt and is due again at `next`. */
  predicate EntryCounted(c: Case, d: Case, next: int, now: int) {
    (c.entry.None? <==> d.entry.None?)
    && (c.entry.Some? ==>
      && d.entry.value.status == c.entry.value.status
      && d.entry.value.attemptCount == c.entry.value.attemptCount + 1
      && d.entry.value.maxAttempts == c.entry.value.maxAttempts
      && d.entry.value.lastAttemptedAt == Some(now) && d.entry.value.nextRetryAt == next
      && d.entry.value.requestedBy == c.entry.value.requestedBy)
  }

  /** The state row, if there is one, turns RESOLVED and keeps the rest. */
  predicate RowResolved(c: Case, d: Case) {
    (c.row.None? <==> d.row.None?)
    && (c.row.Some? ==>
      && d.row.value.status == RESOLVED && d.row.value.recordCount == c.row.value.recordCount
      && d.row.value.matchedSources == c.row.value.matchedSources
      && d.row.value.mismatchedSources == c.row.value.mismatchedSources
      && d.row.value.retryCount == c.row.value.retryCount && d.row.value.maxRetries == c.row.value.maxRetries
      && d.row.value.lastProcessedAt == c.row.value.lastProcessedAt)
  }

  // ---------------------------------------------------------------- matching

  /** The state row of an outcome that has counted one attempt more than c. */
  ghost predicate RowWritten(c: Case, d: Case, o: Outcome, recordCount: nat, maxRetries: int, now: int) {
    && d.row.Some?
    && d.row.value.status == (if o.Matched? then MATCHED else if o.Mismatched? then MISMATCHED else PENDING)
    && d.row.value.recordCount == recordCount && d.row.value.lastProcessedAt == Some(now)
    && d.row.value.retryCount == (if c.row.Some? then c.row.value.retryCount + 1 else 1)
    && d.row.value.maxRetries == (if c.row.Some? then c.row.value.maxRetries else maxRetries)
    && (forall s :: s in d.row.value.matchedSources <==>
      o.Matched? && exists i :: 0 <= i < |o.results| && o.results[i].source == s)
    && (forall s :: s in d.row.value.mismatchedSources <==>
      o.Mismatched? && exists i :: 0 <= i < |o.results| && o.results[i].source == s && o.results[i].discrepancy)
  }

  /** A detail row for every result, and no other change. */
  ghost predicate DetailsWritten(c: Case, d: Case, o: Outcome) {
    && (!o.Pending? ==> forall i :: 0 <= i < |o.results| ==>
      && o.results[i].source in d.details
      && d.details[o.results[i].source].internalId == o.results[i].internalId
      && d.details[o.results[i].source].amount == o.results[i].amount
      && d.details[o.results[i].source].currency == o.results[i].currency
      && d.details[o.results[i].source].payload == o.results[i].payload
      && d.details[o.results[i].source].discrepancy == o.results[i].discrepancy)
    && (forall s :: (o.Pending? || forall i :: 0 <= i < |o.results| ==> o.results[i].source != s) ==>
      (s in d.details <==> s in c.details) && (s in d.details ==> d.details[s] == c.details[s]))
  }

  function OldStatusOf(c: Case): OldStatus { if c.row.Some? then Was(c.row.value.status) else NewTransaction }

  lemma FlaggedSources(results: seq<SourceResult>, s: Source)
    ensures s in SourcesOf(Flagged(results))
      <==> exists i :: 0 <= i < |results| && results[i].source == s && results[i].discrepancy
  {
    var flagged := Flagged(results);
    if s in SourcesOf(flagged) {
      var k :| 0 <= k < |flagged| && flagged[k].source == s;
      assert flagged[k] in results && flagged[k].discrepancy;
    }
    if i :| 0 <= i < |results| && results[i].source == s && results[i].discrepancy {
      assert results[i] in flagged;
      var k :| 0 <= k < |flagged| && flagged[k] == results[i];
      assert SourcesOf(flagged)[k] == s;
    }
  }

  lemma PersistRow(c: Case, o: Outcome, n: nat, maxRetries: int, now: int)
    ensures RowWritten(c, Persist(c, o, n, maxRetries, now), o, n, maxRetries, now)
  {
    var row := Persist(c, o, n, maxRetries, now).row.value;
    assert row.matchedSources == o.MatchedSources() && row.mismatchedSources == o.MismatchedSources();
    forall s ensures s in o.MismatchedSources() <==>
      o.Mismatched? && exists i :: 0 <= i < |o.results| && o.results[i].source == s && o.results[i].discrepancy
    {
      if o.Mismatched? { FlaggedSources(o.results, s); }
    }
    forall s ensures s in o.MatchedSources() <==>
      o.Matched? && exists i :: 0 <= i < |o.results| && o.results[i].source == s
    {
      if o.Matched? { SourcesListed(o.results, s); }
    }
  }

  lemma SourcesListed(results: seq<SourceResult>, s: Source)
    ensures s in SourcesOf(results) <==> exists i :: 0 <= i < |results| && results[i].source == s
  {
    if i :| 0 <= i < |results| && results[i].source == s { assert SourcesOf(results)[i] == s; }
  }

  lemma {:induction false} WriteDetailsOthers(c: Case, results: seq<SourceResult>, s: Source)
    requires forall i :: 0 <= i < |results| ==> results[i].source != s
    ensures var d := WriteDetails(c, results).details;
      (s in d <==> s in c.details) && (s in d ==> d[s] == c.details[s])
    decreases |results|
  {
    if results != [] { WriteDetailsOthers(c, results[..|results| - 1], s); }
  }

  lemma PersistDetails(c: Case, o: Outcome, n: nat, maxRetries: int, now: int)
    requires forall i, j :: 0 <= i < j < |o.Results()| ==> o.Results()[i].source != o.Results()[j].source
    ensures DetailsWritten(c, Persist(c, o, n, maxRetries, now), o)
  {
    var stated := c.UpsertReconState(o.Status(), n, o.MatchedSources(), o.MismatchedSources(), maxRetries, now);
    WriteDetailsAre(stated, o.Results());
    forall s | forall i :: 0 <= i < |o.Results()| ==> o.Results()[i].source != s
      ensures var d := WriteDetails(stated, o.Results()).details;
        (s in d <==> s in c.details) && (s in d ==> d[s] == c.details[s])
    {
      WriteDetailsOthers(stated, o.Results(), s);
    }
  }

  /** The matcher's answer to a reading. */
  function AnswerTo(rd: Reading, rules: RuleSet, now: int): MatchResult {
    if rd.rows == [] then Ok(Pending(0)) else Decide(rd.unique, rules, FirstSeen(rd.rows), now)
  }

  /** One matching attempt: nothing without records or on an amount that does not parse; otherwise the
      state row, the detail rows and one audit entry, all of them from the matcher's answer. */
  lemma ReconcileOutcome(c: Case, rules: RuleSet, rd: Reading, now: int)
    requires IsReading(rd, c.records)
    ensures var r, answer := ReconcileOne(c, rules, rd, now), AnswerTo(rd, rules, now);
      && (r.failed <==> c.records != [] && answer.InvalidAmount?)
      && (c.records == [] || answer.InvalidAmount? ==> r.c == c)
      && (c.records != [] && answer.Ok? ==>
        && r.c.records == c.records && r.c.resolution == c.resolution && r.c.entry == c.entry
        && RowWritten(c, r.c, answer.outcome, |c.records|, rules.maxRetries, now)
        && DetailsWritten(c, r.c, answer.outcome)
        && r.c.log == c.log + [AuditEntry(MATCH_ATTEMPT, OldStatusOf(c), r.c.row.value.status)])
  {
    ReadingDecided(rd, c.records, rules, now);
    ReadingSize(rd, c.records);
    var answer := AnswerTo(rd, rules, now);
    if c.records != [] && answer.Ok? {
      DecisionReports(rd.unique, rules, FirstSeen(rd.rows), now);
      PersistRow(c, answer.outcome, |rd.rows|, rules.maxRetries, now);
      DistinctAnswer(rd, answer.outcome);
      PersistDetails(c, answer.outcome, |rd.rows|, rules.maxRetries, now);
      PersistAttempts(c, answer.outcome, |rd.rows|, rules, now);
      hide Decide, IsReading, Persist, RowWritten, DetailsWritten;
    }
  }

  lemma ReadingSize(rd: Reading, records: seq<RecordView>)
    requires multiset(rd.rows) == multiset(records)
    ensures |rd.rows| == |records|
  {
    assert |multiset(rd.rows)| == |rd.rows| && |multiset(records)| == |records|;
  }

  lemma DistinctAnswer(rd: Reading, o: Outcome)
    requires IsListing(rd.unique, rd.rows) && (o.Pending? || ResultsOf(o, rd.unique))
    ensures forall i, j :: 0 <= i < j < |o.Results()| ==> o.Results()[i].source != o.Results()[j].source
  {}

  /** A retrigger: one entry for the reset, then an attempt that counts from zero and, with a row there
      before, starts from PENDING; a failure leaves that. */
  lemma RetriggerOutcome(c: Case, rules: RuleSet, rd: Reading, now: int)
    requires IsReading(rd, c.records)
    ensures var r, answer := ReTriggerMatch(c, rules, rd, now), AnswerTo(rd, rules, now);
      var reset := AuditEntry(RETRIGGER, Null, PENDING);
      && r.c.records == c.records && r.c.resolution == c.resolution && r.c.entry == c.entry
      && (c.records == [] || answer.InvalidAmount? ==>
        && r.c.details == c.details && r.c.log == c.log + [reset]
        && (c.row.None? ==> r.c.row.None?)
        && (c.row.Some? ==> r.c.row == Some(StateRow(
          PENDING, c.row.value.recordCount, c.row.value.matchedSources, c.row.value.mismatchedSources,
          0, c.row.value.maxRetries, None)))
        && r.reply == if c.records == [] && c.row.Some? then Answer(PENDING) else Failed)
      && (c.records != [] && answer.Ok? ==>
        && DetailsWritten(c, r.c, answer.outcome) && r.c.row.Some? && r.c.row.value.retryCount == 1
        && r.c.row.value.maxRetries == (if c.row.Some? then c.row.value.maxRetries else rules.maxRetries)
        && r.c.row.value.recordCount == |c.records| && r.c.row.value.lastProcessedAt == Some(now)
        && r.reply == Answer(r.c.row.value.status)
        && r.c.log == c.log + [reset, AuditEntry(MATCH_ATTEMPT, if c.row.Some? then Was(PENDING) else NewTransaction,
                                                 r.c.row.value.status)])
  {
    hide AnswerTo, IsReading, ReconcileOne, DetailsWritten;
    ReconcileOutcome(ResetCase(c), rules, rd, now);
    ResetIs(c);
    SameDetailsWritten(c, ResetCase(c), ReTriggerMatch(c, rules, rd, now).c);
  }

  lemma ResetIs(c: Case)
    ensures var e := ResetCase(c);
      && e.records == c.records && e.details == c.details && e.resolution == c.resolution && e.entry == c.entry
      && e.log == c.log + [AuditEntry(RETRIGGER, Null, PENDING)] && (c.row.None? ==> e.row.None?)
      && (c.row.Some? ==> e.row == Some(StateRow(
        PENDING, c.row.value.recordCount, c.row.value.matchedSources, c.row.value.mismatchedSources,
        0, c.row.value.maxRetries, None)))
  {}

  lemma SameDetailsWritten(c: Case, e: Case, d: Case)
    requires c.details == e.details
    ensures forall o :: DetailsWritten(e, d, o) ==> DetailsWritten(c, d, o)
  {}

  // ---------------------------------------------------------------- the retry worker's reaction

  /** The reaction to the engine's reply, for an entry fetched earlier whatever has become of it since. */
  lemma ReactionOutcome(c: Case, cfg: Config, q: QueueRow, reply: EngineReply, picked: Option<Source>, now: int)
    ensures var d := AfterEngine(c, cfg, q, reply, picked, now);
      var next := now + 1000 * Delay(cfg.retry, q.attemptCount + 1);
      var last := q.attemptCount + 1 >= q.maxAttempts;
      var auto := cfg.autoApplyOnExhaustion && cfg.defaultStrategyValid && picked.Some?;
      && SameRecords(c, d)
      && (!(reply == Answer(MISMATCHED) && last && auto) ==> d.row == c.row && d.resolution == c.resolution)
      && (reply == Failed ==>
        EntryCounted(c, d, next, now)
        && d.log == c.log + [AuditEntry(RETRY_ENGINE_ERROR, Was(MISMATCHED), MISMATCHED)])
      && (reply == Answer(PENDING) ==> EntryCounted(c, d, next, now) && d.log == c.log)
      && (reply == Answer(MATCHED) || reply == Answer(RESOLVED) ==>
        EntryMarked(c, d, DONE) && d.log == c.log + [AuditEntry(RETRY_RESOLVED, Was(MISMATCHED), reply.status)])
      && (reply == Answer(MISMATCHED) && !last ==>
        EntryCounted(c, d, next, now) && d.log == c.log + [AuditEntry(RETRY_ATTEMPT, Was(MISMATCHED), MISMATCHED)])
      && (reply == Answer(MISMATCHED) && last && !auto ==>
        EntryMarked(c, d, EXHAUSTED)
        && d.log == c.log + [AuditEntry(RETRY_EXHAUSTED, Was(MISMATCHED), MISMATCHED)])
      && (reply == Answer(MISMATCHED) && last && auto ==>
        && EntryMarked(c, d, DONE) && RowResolved(c, d)
        && d.resolution == Some(ResolutionRow(AUTO, picked.value, RETRY_WORKER))
        && d.log == c.log + [AuditEntry(RETRY_EXHAUSTED, Was(MISMATCHED), MISMATCHED),
                             AuditEntry(AUTO_RESOLUTION, Was(MISMATCHED), RESOLVED)])
  {
    hide Delay;
  }

  /** The call over the network: a lost request does nothing; a lost reply fails after the engine has done
      its part, and a delivered one answers with the status the engine wrote. */
  lemma CallOutcome(c: Case, rules: RuleSet, rpc: Rpc, rd: Reading, now: int)
    requires IsReading(rd, c.records) && c.records != []
    ensures var called, ok := EngineCall(c, rules, rpc, rd, now), AnswerTo(rd, rules, now).Ok?;
      && (rpc == Unreached ==> called.c == c)
      && (rpc != Unreached && ok ==> called.c.row.Some? && called.c.row.value.retryCount == 1
                                     && |called.c.log| == |c.log| + 2)
      && (rpc != Unreached && !ok ==> called.c.log == c.log + [AuditEntry(RETRIGGER, Null, PENDING)])
      && (called.reply == Failed <==> rpc != Delivered || !ok)
      && (called.reply.Answer? ==> called.c.HasStatus(called.reply.status))
  {
    hide ReTriggerMatch, AnswerTo, DetailsWritten, IsReading;
    RetriggerOutcome(c, rules, rd, now);
  }

  /** A visit is the engine's call and the reaction to it; the call leaves entry and resolution alone. */
  lemma VisitCalls(cfg: Config, c: Case, a: Action, now: int) returns (called: Retriggered)
    requires Enabled(cfg, c, a, now) && Protocol.Answered(cfg, c, a, now)
    ensures c.entry.Some? && called == EngineCall(c, cfg.rules, a.rpc, a.rd, now)
    ensures called.c.resolution == c.resolution && called.c.entry == c.entry
    ensures called.reply.Answer? ==> called.c.HasStatus(called.reply.status)
    ensures After(cfg, c, a, now) == AfterEngine(called.c, cfg, c.entry.value, called.reply, a.picked, now)
  {
    called := EngineCall(c, cfg.rules, a.rpc, a.rd, now);
    hide ReconcileOne, AnswerTo, DetailsWritten, AfterEngine, IsReading;
    RetriggerOutcome(c, cfg.rules, a.rd, now);
  }

  /** The last attempt of an entry, answered MISMATCHED: it resolves the transaction if and only if
      auto-apply is on, the strategy is valid and picked a source; otherwise the transaction stays
      MISMATCHED, with the entry EXHAUSTED. */
  lemma ExhaustedVisit(cfg: Config, c: Case, a: Action, now: int)
    requires Sound(cfg, c, now) && Enabled(cfg, c, a, now) && Protocol.Answered(cfg, c, a, now)
    requires EngineCall(c, cfg.rules, a.rpc, a.rd, now).reply == Answer(MISMATCHED)
    requires c.entry.value.maxAttempts <= c.entry.value.attemptCount + 1
    ensures var d := After(cfg, c, a, now);
      if cfg.autoApplyOnExhaustion && cfg.defaultStrategyValid && a.picked.Some? then
        && d.HasStatus(RESOLVED) && d.entry.Some? && d.entry.value.status == DONE
        && d.resolution == Some(ResolutionRow(AUTO, a.picked.value, RETRY_WORKER))
      else
        && d.HasStatus(MISMATCHED) && d.entry.Some? && d.entry.value.status == EXHAUSTED
        && d.resolution == c.resolution
  {
    var called := VisitCalls(cfg, c, a, now);
    hide Sound, AfterEngine, EngineCall, After, Enabled, Protocol.Answered;
    ReactionOutcome(called.c, cfg, c.entry.value, called.reply, a.picked, now);
  }

  /** An answered visit that is MATCHED, or has attempts left, leaves the status the engine found. */
  lemma OrdinaryVisit(cfg: Config, c: Case, a: Action, now: int)
    requires Sound(cfg, c, now) && Enabled(cfg, c, a, now) && Protocol.Answered(cfg, c, a, now)
    ensures var d, reply := After(cfg, c, a, now), EngineCall(c, cfg.rules, a.rpc, a.rd, now).reply;
      && (reply == Answer(MATCHED) ==>
        && d.HasStatus(MATCHED) && EntryMarked(c, d, DONE) && d.resolution == c.resolution)
      && (reply == Answer(MISMATCHED) && c.entry.value.attemptCount + 1 < c.entry.value.maxAttempts ==>
        && d.HasStatus(MISMATCHED) && d.resolution == c.resolution
        && EntryCounted(c, d, now + 1000 * Delay(cfg.retry, c.entry.value.attemptCount + 1), now))
  {
    var called := VisitCalls(cfg, c, a, now);
    hide Sound, AfterEngine, EngineCall, After, Enabled, Protocol.Answered, Delay;
    ReactionOutcome(called.c, cfg, c.entry.value, called.reply, a.picked, now);
  }

  // ---------------------------------------------------------------- requests

  predicate ResolvedBy(c: Case, d: Case, r: ResolutionRow, event: Event) {
    && SameRecords(c, d) && RowResolved(c, d) && EntryMarked(c, d, DONE)
    && d.resolution.Some? && d.resolution.value.kind == r.kind
    && d.resolution.value.chosenSource == r.chosenSource && d.resolution.value.resolver == r.resolver
    && d.log == c.log + [AuditEntry(event, OldStatusOf(c), RESOLVED)]
  }

  /** A manual resolution is done on a MISMATCHED transaction and on one already RESOLVED, whose earlier
      resolution it replaces; otherwise nothing changes. */
  lemma ManualOutcome(cfg: Config, c: Case, chosen: Source, resolver: nat, now: int)
    ensures var d := After(cfg, c, ResolveManually(chosen, resolver), now);
      if c.row.Some? && c.row.value.status in {MISMATCHED, RESOLVED}
      then ResolvedBy(c, d, ResolutionRow(MANUAL, chosen, resolver), MANUAL_RESOLUTION) else d == c
  {}

  /** The same with a source picked by a strategy; a strategy that fails changes nothing. */
  lemma AutoOutcome(cfg: Config, c: Case, picked: Option<Source>, resolver: nat, now: int)
    ensures var d := After(cfg, c, AutoResolve(picked, resolver), now);
      if c.row.Some? && c.row.value.status in {MISMATCHED, RESOLVED} && picked.Some?
      then ResolvedBy(c, d, ResolutionRow(AUTO, picked.value, resolver), AUTO_RESOLUTION) else d == c
  {}

  /** An enqueue of a MISMATCHED transaction: a new entry; or the old one with the new limit, requester
      and due time, which starts over if it was EXHAUSTED and else keeps its status and count. */
  lemma EnqueueOutcome(cfg: Config, c: Case, maxAttempts: int, who: nat, now: int)
    ensures var d := After(cfg, c, EnqueueRetry(maxAttempts, who), now);
      if c.row.Some? && c.row.value.status == MISMATCHED then
        && SameRecords(c, d) && d.row == c.row && d.resolution == c.resolution
        && d.log == c.log + [AuditEntry(RETRY_ENQUEUED, Was(MISMATCHED), MISMATCHED)]
        && d.entry.Some? && d.entry.value.maxAttempts == maxAttempts
        && d.entry.value.nextRetryAt == now && d.entry.value.requestedBy == who
        && (c.entry.None? ==> d.entry.value.lastAttemptedAt == None)
        && (c.entry.Some? ==> d.entry.value.lastAttemptedAt == c.entry.value.lastAttemptedAt)
        && (c.entry.None? || c.entry.value.status == EXHAUSTED ==>
          d.entry.value.status == QUEUED && d.entry.value.attemptCount == 0)
        && (c.entry.Some? && c.entry.value.status != EXHAUSTED ==>
          d.entry.value.status == c.entry.value.status && d.entry.value.attemptCount == c.entry.value.attemptCount)
      else d == c
  {}

  /** A query matches inline when there is no state row, and only then. */
  lemma QueryOutcome(cfg: Config, c: Case, rd: Reading, now: int)
    requires IsReading(rd, c.records)
    ensures var d := After(cfg, c, Query(rd), now);
      && (c.row.Some? ==> d == c)
      && (c.row.None? && c.records != [] && AnswerTo(rd, cfg.rules, now).Ok? ==>
        && d.row.Some? && d.row.value.retryCount == 1
        && d.log == c.log + [AuditEntry(MATCH_ATTEMPT, NewTransaction, d.row.value.status)])
  {
    hide IsReading, ReconcileOne, AnswerTo, DetailsWritten;
    ReconcileOutcome(c, cfg.rules, rd, now);
  }
}
