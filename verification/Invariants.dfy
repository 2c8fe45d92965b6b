/** What every uninterrupted operation keeps true of a transaction's rows. */
module Invariants {
  import opened Wrappers
  import opened Rules
  import opened Matcher
  import opened MatcherLaws
  import opened Cases
  import opened Transitions
  import opened Backoff

  // ---------------------------------------------------------------- the operations as actions

  datatype Action =
    | Ingest(view: RecordView)
    | WorkerVisit(rd: Reading)
    | Query(rd: Reading)
    | Retrigger(rd: Reading)
    | RetryVisit(rpc: Rpc, rd: Reading, picked: Option<Source>)
    | ResolveManually(chosen: Source, resolver: nat)
    | AutoResolve(picked: Option<Source>, resolver: nat)
    | EnqueueRetry(maxAttempts: int, requestedBy: nat)

  ghost predicate Enabled(cfg: Config, c: Case, a: Action, now: int) {
    match a
    case Ingest(_) => true
    case WorkerVisit(rd) => NeedsWork(c, BackoffCutoff(cfg, now)) && IsReading(rd, c.records)
    case Query(rd) => IsReading(rd, c.records)
    case Retrigger(rd) => IsReading(rd, c.records)
    case RetryVisit(_, rd, _) => Due(c, now) && IsReading(rd, c.records)
    case ResolveManually(_, _) => true
    case AutoResolve(_, _) => true
    case EnqueueRetry(_, _) => true
  }

  /** A request whose guard fails changes nothing. */
  ghost function After(cfg: Config, c: Case, a: Action, now: int): Case
    requires Enabled(cfg, c, a, now)
  {
    match a
    case Ingest(view) => c.InsertRecord(view)
    case WorkerVisit(rd) => ReconcileOne(c, cfg.rules, rd, now).c
    case Query(rd) => GetReconState(c, cfg.rules, rd, now)
    case Retrigger(rd) => ReTriggerMatch(c, cfg.rules, rd, now).c
    case RetryVisit(rpc, rd, picked) => RetryOne(c, cfg, rpc, rd, picked, now)
    case ResolveManually(chosen, resolver) =>
      if Resolvable(c) then Resolve(c, ResolutionRow(MANUAL, chosen, resolver)) else c
    case AutoResolve(picked, resolver) =>
      if Resolvable(c) && picked.Some? then Resolve(c, ResolutionRow(AUTO, picked.value, resolver)) else c
    case EnqueueRetry(maxAttempts, requestedBy) =>
      if c.HasStatus(MISMATCHED) then Enqueue(c, maxAttempts, requestedBy, now) else c
  }

  // ---------------------------------------------------------------- the invariants

  /** A RESOLVED transaction has no queue entry that a worker could still pick up or restart. */
  ghost predicate Final(c: Case) {
    c.HasStatus(RESOLVED) ==> c.entry.None? || c.entry.value.status == DONE
  }

  ghost predicate Backed(c: Case) { c.HasStatus(RESOLVED) ==> c.resolution.Some? }

  /** Status reported by the last audit entry, leaving out RETRY_ENGINE_ERROR. */
  function LastStatus(log: seq<AuditEntry>): Option<Status> {
    if log == [] then None
    else if log[|log| - 1].event == RETRY_ENGINE_ERROR then LastStatus(log[..|log| - 1])
    else Some(log[|log| - 1].newStatus)
  }

  /** Replaying the audit log gives the current status. */
  ghost predicate Replays(c: Case) {
    c.row.Some? ==> LastStatus(c.log) == Some(c.row.value.status)
  }

  predicate DecidedEntry(e: AuditEntry) { e.event == MATCH_ATTEMPT && e.newStatus != PENDING }

  /** After an attempt that decided, no attempt answers PENDING. */
  ghost predicate NeverUndecided(log: seq<AuditEntry>) {
    forall i, j :: 0 <= i < j < |log| && DecidedEntry(log[i]) && log[j].event == MATCH_ATTEMPT ==> DecidedEntry(log[j])
  }

  /** Whatever shows a past decision: a status, a queue entry, or an audit entry. */
  ghost predicate ShowsDecision(c: Case) {
    || (c.row.Some? && c.row.value.status != PENDING)
    || c.entry.Some?
    || exists i :: 0 <= i < |c.log| && DecidedEntry(c.log[i])
  }

  ghost predicate StaysDecided(cfg: Config, c: Case, now: int) {
    && NeverUndecided(c.log)
    && (ShowsDecision(c) ==> Decided(c.records, cfg.rules, now))
  }

  /** Detail rows belong to sources that have records; the state row's source lists agree with
      the flags of the detail rows. */
  ghost predicate Indexed(c: Case) {
    && (forall s :: s in c.details ==> HasSource(c.records, s))
    && (c.HasStatus(MISMATCHED) ==>
      forall s :: s in c.row.value.mismatchedSources <==> s in c.details && c.details[s].discrepancy)
    && (c.HasStatus(MATCHED) ==>
      forall s :: s in c.row.value.matchedSources <==> s in c.details)
    && (c.HasStatus(MATCHED) ==> forall s :: s in c.details ==> !c.details[s].discrepancy)
  }

  /** The attempt counter never passes the limit, except for the one attempt always made. */
  ghost predicate Counted(cfg: Config, c: Case) {
    && (c.row.Some? ==> c.row.value.maxRetries == cfg.rules.maxRetries)
    && (c.row.Some? ==> c.row.value.retryCount <= Max(1, cfg.rules.maxRetries))
  }

  ghost predicate Sound(cfg: Config, c: Case, now: int) {
    Final(c) && Backed(c) && Replays(c) && StaysDecided(cfg, c, now) && Indexed(c) && Counted(cfg, c)
  }

  // ---------------------------------------------------------------- one matching attempt

  ghost predicate ResultsOf(o: Outcome, unique: seq<RecordView>) {
    && !o.Pending? && |o.results| == |unique|
    && (forall i :: 0 <= i < |unique| ==>
      o.results[i] == ToSourceResult(ParsedRecord(unique[i], AmountOf(unique[i])), o.results[i].discrepancy))
    && (o.Matched? ==> forall i :: 0 <= i < |unique| ==> !o.results[i].discrepancy)
  }

  /** A decision reports every listed record once, and MATCHED flags none. */
  lemma DecisionReports(unique: seq<RecordView>, rules: RuleSet, firstSeen: int, now: int)
    ensures var r := Decide(unique, rules, firstSeen, now);
      r.Ok? && !r.outcome.Pending? ==> ResultsOf(r.outcome, unique)
  {}

  /** The case was matched once, with the answer `s`. */
  ghost predicate Attempted(c: Case, d: Case, rules: RuleSet, s: Status) {
    && d.records == c.records && d.resolution == c.resolution && d.entry == c.entry
    && d.log == c.log + [AuditEntry(MATCH_ATTEMPT, StatusBefore(c), s)]
    && s != RESOLVED && d.HasStatus(s)
    && d.row.value.retryCount == (if c.row.None? then 1 else c.row.value.retryCount + 1)
    && d.row.value.maxRetries == (if c.row.None? then rules.maxRetries else c.row.value.maxRetries)
    && (s == PENDING ==> d.details == c.details)
  }

  lemma PersistAttempts(c: Case, o: Outcome, recordCount: nat, rules: RuleSet, now: int)
    ensures Attempted(c, Persist(c, o, recordCount, rules.maxRetries, now), rules, o.Status())
  {}

  /** `reconcile_one` leaves the case alone (no records, or an amount that does not parse), or
      attempts a match; it answers PENDING exactly when the case is undecided. */
  lemma ReconcileAttempts(c: Case, rules: RuleSet, rd: Reading, now: int)
    requires IsReading(rd, c.records)
    ensures var r := ReconcileOne(c, rules, rd, now);
      if c.records == [] || r.failed then r.c == c
      else exists s :: Attempted(c, r.c, rules, s) && (s == PENDING <==> !Decided(c.records, rules, now))
    ensures c.records == [] ==> !ReconcileOne(c, rules, rd, now).failed
    ensures ReconcileOne(c, rules, rd, now).failed ==> Decided(c.records, rules, now)
  {
    ReadingDecided(rd, c.records, rules, now);
    if rd.rows != [] {
      PendingIff(rd.unique, rd.rows, rules, now);
      var decision := Decide(rd.unique, rules, FirstSeen(rd.rows), now);
      if decision.Ok? {
        PersistAttempts(c, decision.outcome, |rd.rows|, rules, now);
      }
    }
  }

  /** Detail row `d` shows record `r`. */
  predicate Shows(d: DetailRow, r: RecordView) {
    d.internalId == r.internalId && d.amount == AmountOf(r) && d.currency == r.currency && d.payload == r.payload
  }

  /** One detail row per distinct source, each showing that source's latest record. */
  ghost predicate DetailsAreLatest(details: map<Source, DetailRow>, rows: seq<RecordView>) {
    && (forall s :: s in details <==> HasSource(rows, s))
    && (forall s :: s in details ==> exists r: RecordView :: r.source == s && IsLatest(r, rows) && Shows(details[s], r))
  }

  ghost predicate DetailsWithinSources(c: Case) { forall s :: s in c.details ==> HasSource(c.records, s) }

  lemma ReadingSources(rd: Reading, records: seq<RecordView>, s: Source)
    requires multiset(rd.rows) == multiset(records)
    ensures HasSource(rd.rows, s) <==> HasSource(records, s)
  {
    if HasSource(rd.rows, s) {
      var i :| 0 <= i < |rd.rows| && rd.rows[i].source == s;
      ReadingMembers(rd, records, rd.rows[i]);
    }
    if HasSource(records, s) {
      var i :| 0 <= i < |records| && records[i].source == s;
      ReadingMembers(rd, records, records[i]);
    }
  }

  ghost predicate FromResult(results: seq<SourceResult>, s: Source) {
    exists i :: 0 <= i < |results| && results[i].source == s
  }

  lemma ResultSources(o: Outcome, rd: Reading, s: Source)
    requires IsListing(rd.unique, rd.rows) && ResultsOf(o, rd.unique)
    ensures HasSource(rd.rows, s) <==> FromResult(o.results, s)
  {}

  /** After a decision the detail table agrees with the records. */
  lemma PersistIndexes(c: Case, o: Outcome, rd: Reading, maxRetries: int, now: int)
    requires IsReading(rd, c.records) && ResultsOf(o, rd.unique) && DetailsWithinSources(c)
    ensures var d := Persist(c, o, |rd.rows|, maxRetries, now);
      && DetailsAreLatest(d.details, rd.rows)
      && (forall s :: s in d.details <==> FromResult(o.results, s))
      && (forall s :: s in d.details ==> HasSource(c.records, s))
      && (forall i :: 0 <= i < |o.results| ==>
        o.results[i].source in d.details && d.details[o.results[i].source] == ToDetail(o.results[i]))
  {
    var stated := c.UpsertReconState(o.Status(), |rd.rows|, o.MatchedSources(), o.MismatchedSources(), maxRetries, now);
    WriteDetailsAre(stated, o.results);
    var details := Persist(c, o, |rd.rows|, maxRetries, now).details;
    assert details == WriteDetails(stated, o.results).details;
    forall s
      ensures s in details <==> HasSource(rd.rows, s)
      ensures s in details <==> FromResult(o.results, s)
      ensures HasSource(rd.rows, s) <==> HasSource(c.records, s)
    {
      ResultSources(o, rd, s);
      ReadingSources(rd, c.records, s);
    }
    forall s | s in details
      ensures exists r: RecordView :: r.source == s && IsLatest(r, rd.rows) && Shows(details[s], r)
    {
      ResultSources(o, rd, s);
      var i :| 0 <= i < |o.results| && o.results[i].source == s;
      assert IsLatest(rd.unique[i], rd.rows);
      assert Shows(details[s], rd.unique[i]);
    }
  }

  /** The outcome's source lists agree with detail rows written from its results. */
  lemma ListsAgree(details: map<Source, DetailRow>, o: Outcome)
    requires !o.Pending?
    requires forall s :: s in details <==> FromResult(o.results, s)
    requires forall i :: 0 <= i < |o.results| ==>
      o.results[i].source in details && details[o.results[i].source] == ToDetail(o.results[i])
    requires o.Matched? ==> forall i :: 0 <= i < |o.results| ==> !o.results[i].discrepancy
    ensures o.Matched? ==> forall s :: s in o.MatchedSources() <==> s in details
    ensures o.Matched? ==> forall s :: s in details ==> !details[s].discrepancy
    ensures o.Mismatched? ==> forall s :: s in o.MismatchedSources() <==> s in details && details[s].discrepancy
  {}

  lemma IndexedByOutcome(d: Case, o: Outcome)
    requires d.HasStatus(o.Status()) && DetailsWithinSources(d)
    requires d.row.value.matchedSources == o.MatchedSources()
    requires d.row.value.mismatchedSources == o.MismatchedSources()
    requires o.Pending? || forall s :: s in d.details <==> FromResult(o.results, s)
    requires o.Pending? || forall i :: 0 <= i < |o.results| ==>
      o.results[i].source in d.details && d.details[o.results[i].source] == ToDetail(o.results[i])
    requires o.Matched? ==> forall i :: 0 <= i < |o.results| ==> !o.results[i].discrepancy
    ensures Indexed(d)
  {
    if !o.Pending? { ListsAgree(d.details, o); }
  }

  lemma PersistIndexed(c: Case, o: Outcome, rd: Reading, maxRetries: int, now: int)
    requires IsReading(rd, c.records) && DetailsWithinSources(c)
    requires o.Pending? || ResultsOf(o, rd.unique)
    ensures Indexed(Persist(c, o, |rd.rows|, maxRetries, now))
  {
    var d := Persist(c, o, |rd.rows|, maxRetries, now);
    if !o.Pending? { PersistIndexes(c, o, rd, maxRetries, now); }
    IndexedByOutcome(d, o);
  }

  /** `reconcile_one` keeps the index, and after a decision every detail row shows the latest
      record of its source. */
  lemma ReconcileIndexes(c: Case, rules: RuleSet, rd: Reading, now: int)
    requires IsReading(rd, c.records) && Indexed(c)
    ensures var r := ReconcileOne(c, rules, rd, now);
      Indexed(r.c) && (!r.failed && Decided(c.records, rules, now) ==> DetailsAreLatest(r.c.details, rd.rows))
  {
    ReadingDecided(rd, c.records, rules, now);
    if rd.rows != [] {
      var firstSeen := FirstSeen(rd.rows);
      PendingIff(rd.unique, rd.rows, rules, now);
      DecisionReports(rd.unique, rules, firstSeen, now);
      var decision := Decide(rd.unique, rules, firstSeen, now);
      if decision.Ok? {
        PersistIndexed(c, decision.outcome, rd, rules.maxRetries, now);
        if !decision.outcome.Pending? { PersistIndexes(c, decision.outcome, rd, rules.maxRetries, now); }
      }
    }
  }

  // ---------------------------------------------------------------- statement by statement

  lemma LastStatusAppend(log: seq<AuditEntry>, e: AuditEntry)
    ensures LastStatus(log + [e]) == if e.event == RETRY_ENGINE_ERROR then LastStatus(log) else Some(e.newStatus)
  {}

  lemma AuditKeeps(cfg: Config, c: Case, e: AuditEntry, now: int)
    requires Sound(cfg, c, now) && e.event != MATCH_ATTEMPT
    requires e.event == RETRY_ENGINE_ERROR || c.HasStatus(e.newStatus) || c.row.None?
    ensures Sound(cfg, c.AppendAudit(e), now)
  {}

  /** A change of the queue entry alone. */
  lemma EntryKeeps(cfg: Config, c: Case, d: Case, now: int)
    requires Sound(cfg, c, now) && d == c.(entry := d.entry) && Final(d)
    requires d.entry.Some? ==> ShowsDecision(c)
    ensures Sound(cfg, d, now)
  {}

  /** The state row turns RESOLVED in a case whose queue entry is closed and whose resolution is
      stored, and the audit entry says so. */
  lemma ResolvedKeeps(cfg: Config, c: Case, e: AuditEntry, now: int)
    requires Sound(cfg, c, now) && c.row.Some? && c.row.value.status != PENDING
    requires c.resolution.Some? && (c.entry.None? || c.entry.value.status == DONE)
    requires e.newStatus == RESOLVED && e.event != MATCH_ATTEMPT && e.event != RETRY_ENGINE_ERROR
    ensures Sound(cfg, c.UpdateToResolved().AppendAudit(e), now)
  {}

  lemma ResolutionKeeps(cfg: Config, c: Case, r: ResolutionRow, now: int)
    requires Sound(cfg, c, now)
    ensures Sound(cfg, c.InsertResolution(r), now)
  {}

  lemma AttemptKeeps(cfg: Config, c: Case, d: Case, s: Status, now: int)
    requires Sound(cfg, c, now) && Attempted(c, d, cfg.rules, s) && Indexed(d)
    requires s == PENDING <==> !Decided(c.records, cfg.rules, now)
    requires c.row.None? || c.row.value.retryCount < Max(1, cfg.rules.maxRetries)
    ensures Sound(cfg, d, now)
  {}

  // ---------------------------------------------------------------- operation by operation

  lemma ReconcileKeeps(cfg: Config, c: Case, rd: Reading, now: int)
    requires Sound(cfg, c, now) && IsReading(rd, c.records)
    requires c.row.None? || c.row.value.retryCount < Max(1, cfg.rules.maxRetries)
    ensures Sound(cfg, ReconcileOne(c, cfg.rules, rd, now).c, now)
  {
    ReconcileAttempts(c, cfg.rules, rd, now);
    ReconcileIndexes(c, cfg.rules, rd, now);
    var r := ReconcileOne(c, cfg.rules, rd, now);
    if c.records != [] && !r.failed {
      var s :| Attempted(c, r.c, cfg.rules, s) && (s == PENDING <==> !Decided(c.records, cfg.rules, now));
      AttemptKeeps(cfg, c, r.c, s, now);
    }
  }

  lemma ResetKeeps(cfg: Config, c: Case, now: int)
    requires Sound(cfg, c, now)
    ensures Sound(cfg, ResetCase(c), now)
  {}

  /** Besides soundness: the reply is the new status, and that is never RESOLVED. */
  lemma RetriggerKeeps(cfg: Config, c: Case, rd: Reading, now: int)
    requires Sound(cfg, c, now) && IsReading(rd, c.records)
    ensures var r := ReTriggerMatch(c, cfg.rules, rd, now);
      && Sound(cfg, r.c, now)
      && !r.c.HasStatus(RESOLVED)
      && r.c.entry == c.entry && r.c.records == c.records
      && (r.reply.Answer? ==> r.c.HasStatus(r.reply.status))
  {
    ResetKeeps(cfg, c, now);
    ReconcileKeeps(cfg, ResetCase(c), rd, now);
    ReconcileAttempts(ResetCase(c), cfg.rules, rd, now);
  }

  lemma ResolveKeeps(cfg: Config, c: Case, r: ResolutionRow, now: int)
    requires Sound(cfg, c, now) && Resolvable(c)
    ensures Sound(cfg, Resolve(c, r), now)
  {}

  lemma ExhaustedKeeps(cfg: Config, c: Case, picked: Option<Source>, now: int)
    requires Sound(cfg, c, now) && c.HasStatus(MISMATCHED) && c.entry.Some?
    ensures Sound(cfg, HandleExhausted(c, cfg, picked), now)
  {
    var marked := c.MarkRetry(EXHAUSTED);
    EntryKeeps(cfg, c, marked, now);
    var e := AuditEntry(RETRY_EXHAUSTED, Was(MISMATCHED), MISMATCHED);
    AuditKeeps(cfg, marked, e, now);
    var logged := marked.AppendAudit(e);
    if picked.Some? {
      var r := ResolutionRow(AUTO, picked.value, RETRY_WORKER);
      ResolutionKeeps(cfg, logged, r, now);
      var closed := logged.InsertResolution(r).MarkRetry(DONE);
      EntryKeeps(cfg, logged.InsertResolution(r), closed, now);
      var done := AuditEntry(AUTO_RESOLUTION, Was(MISMATCHED), RESOLVED);
      ResolvedKeeps(cfg, closed, done, now);
      assert ApplyAutoResolution(logged, picked.value) == closed.UpdateToResolved().AppendAudit(done);
    }
  }

  lemma AfterEngineKeeps(cfg: Config, c: Case, fetched: QueueRow, reply: EngineReply, picked: Option<Source>, now: int)
    requires Sound(cfg, c, now) && c.entry.Some? && !c.HasStatus(RESOLVED)
    requires reply.Answer? ==> c.HasStatus(reply.status)
    ensures Sound(cfg, AfterEngine(c, cfg, fetched, reply, picked, now), now)
  {
    var attempt := fetched.attemptCount + 1;
    var incremented := c.IncrementRetryAttempt(NextRetryTime(cfg.retry, attempt, now), now);
    EntryKeeps(cfg, c, incremented, now);
    EntryKeeps(cfg, c, c.MarkRetry(DONE), now);
    match reply
    case Failed => AuditKeeps(cfg, incremented, AuditEntry(RETRY_ENGINE_ERROR, Was(MISMATCHED), MISMATCHED), now);
    case Answer(MATCHED) => AuditKeeps(cfg, c.MarkRetry(DONE), AuditEntry(RETRY_RESOLVED, Was(MISMATCHED), MATCHED), now);
    case Answer(MISMATCHED) =>
      if attempt >= fetched.maxAttempts {
        ExhaustedKeeps(cfg, c, picked, now);
      } else {
        AuditKeeps(cfg, incremented, AuditEntry(RETRY_ATTEMPT, Was(MISMATCHED), MISMATCHED), now);
      }
    case Answer(_) =>
  }

  lemma RetryKeeps(cfg: Config, c: Case, rpc: Rpc, rd: Reading, picked: Option<Source>, now: int)
    requires Sound(cfg, c, now) && Due(c, now) && IsReading(rd, c.records)
    ensures Sound(cfg, RetryOne(c, cfg, rpc, rd, picked, now), now)
  {
    RetriggerKeeps(cfg, c, rd, now);
    var called := EngineCall(c, cfg.rules, rpc, rd, now);
    AfterEngineKeeps(cfg, called.c, c.entry.value, called.reply, picked, now);
  }

  lemma EnqueueKeeps(cfg: Config, c: Case, maxAttempts: int, requestedBy: nat, now: int)
    requires Sound(cfg, c, now) && c.HasStatus(MISMATCHED)
    ensures Sound(cfg, Enqueue(c, maxAttempts, requestedBy, now), now)
  {
    var queued := c.EnqueueRetry(maxAttempts, requestedBy, now);
    EntryKeeps(cfg, c, queued, now);
    AuditKeeps(cfg, queued, AuditEntry(RETRY_ENQUEUED, StatusBefore(c), MISMATCHED), now);
  }

  lemma IngestKeeps(cfg: Config, c: Case, view: RecordView, now: int)
    requires Sound(cfg, c, now)
    ensures Sound(cfg, c.InsertRecord(view), now)
  {
    var d := c.InsertRecord(view);
    if ShowsDecision(d) {
      assert ShowsDecision(c);
      DecidedMonotone(c.records, d.records, cfg.rules, now, now);
    }
    forall s | s in d.details ensures HasSource(d.records, s) {
      assert HasSource(c.records, s);
      var i :| 0 <= i < |c.records| && c.records[i].source == s;
      assert d.records[i].source == s;
    }
  }

  /** Every operation keeps a case sound. */
  lemma ActionKeepsSound(cfg: Config, c: Case, a: Action, now: int)
    requires Sound(cfg, c, now) && Enabled(cfg, c, a, now)
    ensures Sound(cfg, After(cfg, c, a, now), now)
  {
    match a
    case Ingest(view) => IngestKeeps(cfg, c, view, now);
    case WorkerVisit(rd) => ReconcileKeeps(cfg, c, rd, now);
    case Query(rd) => if c.row.None? { ReconcileKeeps(cfg, c, rd, now); }
    case Retrigger(rd) => RetriggerKeeps(cfg, c, rd, now);
    case RetryVisit(rpc, rd, picked) => RetryKeeps(cfg, c, rpc, rd, picked, now);
    case ResolveManually(chosen, resolver) =>
      if Resolvable(c) { ResolveKeeps(cfg, c, ResolutionRow(MANUAL, chosen, resolver), now); }
    case AutoResolve(picked, resolver) =>
      if Resolvable(c) && picked.Some? { ResolveKeeps(cfg, c, ResolutionRow(AUTO, picked.value, resolver), now); }
    case EnqueueRetry(maxAttempts, requestedBy) =>
      if c.HasStatus(MISMATCHED) { EnqueueKeeps(cfg, c, maxAttempts, requestedBy, now); }
  }

  lemma TimeKeepsSound(cfg: Config, c: Case, now: int, later: int)
    requires Sound(cfg, c, now) && now <= later
    ensures Sound(cfg, c, later)
  {}
}
