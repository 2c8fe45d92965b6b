/** The audit log as an explanation of the status: every entry starts from the status that the
    entries before it report, and a resolution is told as what it was. */
module Audit {
  import opened Wrappers
  import opened Rules
  import opened Matcher
  import opened MatcherLaws
  import opened Cases
  import opened Transitions
  import opened Invariants
  import opened Protocol

  /** Entries that read the old status from the table, or write it where it is known. */
  predicate Tells(e: AuditEntry) {
    e.event in {MATCH_ATTEMPT, MANUAL_RESOLUTION, AUTO_RESOLUTION, RETRY_ENQUEUED, RETRY_ATTEMPT, RETRY_EXHAUSTED}
  }

  predicate NoAttempt(log: seq<AuditEntry>) { forall i :: 0 <= i < |log| ==> log[i].event != MATCH_ATTEMPT }

  /** `e` continues the log: it starts from the status reported last, or is the first attempt. */
  predicate Links(log: seq<AuditEntry>, e: AuditEntry) {
    match e.oldStatus
    case Was(s) => LastStatus(log) == Some(s)
    case NewTransaction => e.event == MATCH_ATTEMPT && NoAttempt(log)
    case Null => false
  }

  ghost predicate Chained(log: seq<AuditEntry>) {
    forall i :: 0 <= i < |log| && Tells(log[i]) ==> Links(log[..i], log[i])
  }

  /** The last entry of a RESOLVED transaction names the kind of its resolution record. */
  predicate KindTold(c: Case) {
    c.HasStatus(RESOLVED) && c.resolution.Some? ==>
      c.log != [] && c.log[|c.log| - 1].event
        == if c.resolution.value.kind == MANUAL then MANUAL_RESOLUTION else AUTO_RESOLUTION
  }

  ghost predicate Explained(c: Case) {
    Chained(c.log) && KindTold(c) && (c.row.None? ==> NoAttempt(c.log))
  }

  lemma ChainedAppend(log: seq<AuditEntry>, e: AuditEntry)
    requires Chained(log) && (Tells(e) ==> Links(log, e))
    ensures Chained(log + [e])
  {
    var after := log + [e];
    forall i | 0 <= i < |after| && Tells(after[i]) ensures Links(after[..i], after[i]) {
      if i < |log| {
        assert after[..i] == log[..i] && after[i] == log[i];
      } else {
        assert after[..i] == log;
      }
    }
  }

  /** An entry that starts from the current status continues the log. */
  lemma StatusLinks(c: Case, e: AuditEntry)
    requires Replays(c) && c.row.Some? && e.oldStatus == Was(c.row.value.status)
    ensures Links(c.log, e)
  {}

  lemma ReconcileExplains(cfg: Config, c: Case, rd: Reading, now: int)
    requires Sound(cfg, c, now) && Explained(c) && IsReading(rd, c.records)
    ensures Explained(ReconcileOne(c, cfg.rules, rd, now).c)
  {
    ReconcileAttempts(c, cfg.rules, rd, now);
    var r := ReconcileOne(c, cfg.rules, rd, now);
    if c.records != [] && !r.failed {
      var s :| Attempted(c, r.c, cfg.rules, s) && (s == PENDING <==> !Decided(c.records, cfg.rules, now));
      AttemptExplains(cfg.rules, c, r.c, s);
    }
  }

  lemma AttemptExplains(rules: RuleSet, c: Case, d: Case, s: Status)
    requires Replays(c) && Explained(c) && Attempted(c, d, rules, s)
    ensures Explained(d)
  {
    var e := AuditEntry(MATCH_ATTEMPT, StatusBefore(c), s);
    if c.row.Some? { StatusLinks(c, e); }
    ChainedAppend(c.log, e);
  }

  lemma RetriggerExplains(cfg: Config, c: Case, rd: Reading, now: int)
    requires Sound(cfg, c, now) && Explained(c) && IsReading(rd, c.records)
    ensures Explained(ReTriggerMatch(c, cfg.rules, rd, now).c)
  {
    ResetKeeps(cfg, c, now);
    ResetExplains(c);
    ReconcileExplains(cfg, ResetCase(c), rd, now);
  }

  lemma ResetExplains(c: Case)
    requires Explained(c)
    ensures Explained(ResetCase(c))
  {
    ChainedAppend(c.log, AuditEntry(RETRIGGER, Null, PENDING));
  }

  lemma ResolveExplains(c: Case, r: ResolutionRow)
    requires Replays(c) && Explained(c) && Resolvable(c)
    ensures Explained(Resolve(c, r))
  {
    var e := AuditEntry(if r.kind == MANUAL then MANUAL_RESOLUTION else AUTO_RESOLUTION, StatusBefore(c), RESOLVED);
    StatusLinks(c, e);
    ChainedAppend(c.log, e);
  }

  lemma ExhaustedExplains(cfg: Config, c: Case, picked: Option<Source>)
    requires Replays(c) && Explained(c) && c.HasStatus(MISMATCHED)
    ensures Explained(HandleExhausted(c, cfg, picked))
  {
    var e := AuditEntry(RETRY_EXHAUSTED, Was(MISMATCHED), MISMATCHED);
    StatusLinks(c, e);
    ChainedAppend(c.log, e);
    LastStatusAppend(c.log, e);
    ChainedAppend(c.log + [e], AuditEntry(AUTO_RESOLUTION, Was(MISMATCHED), RESOLVED));
  }

  lemma AfterEngineExplains(cfg: Config, c: Case, fetched: QueueRow, reply: EngineReply, picked: Option<Source>, now: int)
    requires Replays(c) && Explained(c) && c.row.Some? && !c.HasStatus(RESOLVED)
    requires reply.Answer? ==> c.HasStatus(reply.status)
    ensures Explained(AfterEngine(c, cfg, fetched, reply, picked, now))
  {
    match reply
    case Failed => ChainedAppend(c.log, AuditEntry(RETRY_ENGINE_ERROR, Was(MISMATCHED), MISMATCHED));
    case Answer(s) =>
      ChainedAppend(c.log, AuditEntry(RETRY_RESOLVED, Was(MISMATCHED), s));
      if s == MISMATCHED {
        ExhaustedExplains(cfg, c, picked);
        StatusLinks(c, AuditEntry(RETRY_ATTEMPT, Was(MISMATCHED), MISMATCHED));
        ChainedAppend(c.log, AuditEntry(RETRY_ATTEMPT, Was(MISMATCHED), MISMATCHED));
      }
  }

  lemma RetryExplains(cfg: Config, c: Case, rpc: Rpc, rd: Reading, picked: Option<Source>, now: int)
    requires Sound(cfg, c, now) && Explained(c) && Due(c, now) && c.row.Some? && IsReading(rd, c.records)
    ensures Explained(RetryOne(c, cfg, rpc, rd, picked, now))
  {
    RetriggerKeeps(cfg, c, rd, now);
    RetriggerExplains(cfg, c, rd, now);
    RetriggerExtends(c, cfg.rules, rd, now);
    var called := EngineCall(c, cfg.rules, rpc, rd, now);
    hide ReTriggerMatch, Sound, IsReading;
    AfterEngineExplains(cfg, called.c, c.entry.value, called.reply, picked, now);
  }

  lemma EnqueueExplains(c: Case, maxAttempts: int, requestedBy: nat, now: int)
    requires Replays(c) && Explained(c) && c.HasStatus(MISMATCHED)
    ensures Explained(Enqueue(c, maxAttempts, requestedBy, now))
  {
    var e := AuditEntry(RETRY_ENQUEUED, StatusBefore(c), MISMATCHED);
    StatusLinks(c, e);
    ChainedAppend(c.log, e);
  }

  /** A queue entry exists only beside a state row. */
  predicate Anchored(c: Case) { c.entry.Some? ==> c.row.Some? }

  lemma ActionExplains(cfg: Config, c: Case, a: Action, now: int)
    requires Sound(cfg, c, now) && Explained(c) && Anchored(c) && Enabled(cfg, c, a, now)
    ensures Explained(After(cfg, c, a, now))
  {
    match a
    case WorkerVisit(rd) => ReconcileExplains(cfg, c, rd, now);
    case Query(rd) => ReconcileExplains(cfg, c, rd, now);
    case Retrigger(rd) => RetriggerExplains(cfg, c, rd, now);
    case RetryVisit(rpc, rd, picked) => RetryExplains(cfg, c, rpc, rd, picked, now);
    case ResolveManually(chosen, resolver) =>
      if Resolvable(c) { ResolveExplains(c, ResolutionRow(MANUAL, chosen, resolver)); }
    case AutoResolve(picked, resolver) =>
      if Resolvable(c) && picked.Some? { ResolveExplains(c, ResolutionRow(AUTO, picked.value, resolver)); }
    case EnqueueRetry(maxAttempts, requestedBy) =>
      if c.HasStatus(MISMATCHED) { EnqueueExplains(c, maxAttempts, requestedBy, now); }
    case Ingest(_) =>
  }

  lemma ActionAnchors(cfg: Config, c: Case, a: Action, now: int)
    requires Anchored(c) && Enabled(cfg, c, a, now)
    ensures Anchored(After(cfg, c, a, now))
  {
    ActionExtends(cfg, c, a, now);
    if c.entry.None? { NoEntryAppears(cfg, c, a, now); }
  }

  /** Only an enqueue, and only of a MISMATCHED transaction, creates a queue entry. */
  lemma NoEntryAppears(cfg: Config, c: Case, a: Action, now: int)
    requires c.entry.None? && Enabled(cfg, c, a, now)
    ensures After(cfg, c, a, now).entry.Some? ==> a.EnqueueRetry? && c.HasStatus(MISMATCHED)
  {
    match a
    case WorkerVisit(rd) => ReconcileAttempts(c, cfg.rules, rd, now);
    case Query(rd) => ReconcileAttempts(c, cfg.rules, rd, now);
    case Retrigger(rd) => ReconcileAttempts(ResetCase(c), cfg.rules, rd, now);
    case _ =>
  }

  ghost predicate ExplainedAt(s: State, ref: Ref) { Explained(At(s, ref)) && Anchored(At(s, ref)) }

  lemma {:induction false} RunExplains(cfg: Config, s: State, steps: seq<Step>, ref: Ref)
    requires AllSound(cfg, s) && IsRun(cfg, s, steps) && ExplainedAt(s, ref)
    ensures ExplainedAt(End(cfg, s, steps), ref)
    decreases |steps|
  {
    if steps != [] {
      var s' := Next(cfg, s, steps[0]);
      assert SoundAt(cfg, s, ref);
      if steps[0].On? && steps[0].ref == ref {
        ActionExplains(cfg, At(s, ref), steps[0].action, s.now);
        ActionAnchors(cfg, At(s, ref), steps[0].action, s.now);
      }
      StepKeepsSound(cfg, s, steps[0]);
      RunExplains(cfg, s', steps[1..], ref);
    }
  }

  /** In every run of whole operations from empty tables: each telling entry starts from the status
      that the log reported last (the first attempt from none), and a RESOLVED transaction's last
      entry names the kind of its resolution. */
  lemma LogExplainsStatus(cfg: Config, now: int, steps: seq<Step>, ref: Ref)
    requires IsRun(cfg, Empty(now), steps)
    ensures var c := At(End(cfg, Empty(now), steps), ref);
      && (forall i :: 0 <= i < |c.log| && Tells(c.log[i]) ==> Links(c.log[..i], c.log[i]))
      && KindTold(c)
  {
    EmptySound(cfg, now);
    assert ExplainedAt(Empty(now), ref);
    RunExplains(cfg, Empty(now), steps, ref);
  }

  /** RETRY_RESOLVED does not tell: it always says MISMATCHED was before, although the engine has
      already logged the new status. */
  lemma RetryResolvedBreaksTheChain(cfg: Config, c: Case, picked: Option<Source>, now: int)
    requires Replays(c) && c.HasStatus(MATCHED) && c.entry.Some?
    ensures var d := AfterEngine(c, cfg, c.entry.value, Answer(MATCHED), picked, now);
      d.log == c.log + [AuditEntry(RETRY_RESOLVED, Was(MISMATCHED), MATCHED)] && !Links(c.log, d.log[|c.log|])
  {}
}
