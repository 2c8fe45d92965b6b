/** When the pending timeout takes effect: whether the engine worker's attempts last long enough for
    a silent transaction to be found too old (services/engine/src/db/queries.rs,
    services/engine/src/engine/matcher.rs). */
module Escalation {
  import opened Wrappers
  import opened Rules
  import opened Matcher
  import opened MatcherLaws
  import opened Cases
  import opened Transitions
  import opened Invariants
  import opened Protocol

  /** The least time, in milliseconds, between two of the worker's attempts on a transaction. */
  function Gap(cfg: Config): int { 1000 * cfg.retryBackoffSecs + 1 }

  /** The last attempt comes no earlier than the pending timeout. */
  predicate OutlastsTimeout(cfg: Config) {
    1 <= cfg.rules.maxRetries && (cfg.rules.maxRetries - 1) * Gap(cfg) / 1000 >= cfg.rules.pendingTimeoutSecs
  }

  /** Records carry an arrival time that is not in the future. */
  ghost predicate Timely(cfg: Config, s: State, steps: seq<Step>)
    requires IsRun(cfg, s, steps)
    decreases |steps|
  {
    steps == [] || (TimelyStep(s, steps[0]) && Timely(cfg, Next(cfg, s, steps[0]), steps[1..]))
  }

  predicate TimelyStep(s: State, step: Step) {
    step.On? && step.action.Ingest? ==> step.action.view.receivedAt <= s.now
  }

  // ---------------------------------------------------------------- attempts take time

  predicate Arrived(c: Case, now: int) { forall r :: r in c.records ==> r.receivedAt <= now }

  /** Some record is at least `age` milliseconds old at time `t`. */
  ghost predicate OldBy(c: Case, age: int, t: int) { exists r :: r in c.records && r.receivedAt + age <= t }

  /** At its n-th attempt a PENDING transaction is n - 1 gaps old, and attempts are left. */
  ghost predicate Aged(cfg: Config, c: Case) {
    && (c.row.Some? ==> c.records != [])
    && (c.HasStatus(PENDING) ==>
      var row := c.row.value;
      && row.retryCount < cfg.rules.maxRetries
      && (0 < row.retryCount ==>
        row.lastProcessedAt.Some? && OldBy(c, (row.retryCount - 1) * Gap(cfg), row.lastProcessedAt.value)))
  }

  /** The next attempt may be made now. */
  predicate Rested(cfg: Config, c: Case, now: int) {
    c.row.None? || (c.HasStatus(PENDING) &&
                    (0 < c.row.value.retryCount ==>
                       c.row.value.lastProcessedAt.Some? && c.row.value.lastProcessedAt.value + Gap(cfg) <= now))
  }

  lemma GapsAdd(n: int, gap: int)
    ensures n * gap == (n - 1) * gap + gap
  {}

  lemma GapsGrow(m: int, n: int, gap: int)
    requires m <= n && 0 < gap
    ensures m * gap <= n * gap
  {}

  /** An attempt that answers PENDING came before the timeout, so it was not the last one. */
  lemma NotTheLast(cfg: Config, c: Case, n: int, now: int)
    requires OutlastsTimeout(cfg) && !Decided(c.records, cfg.rules, now) && OldBy(c, n * Gap(cfg), now)
    ensures n + 1 < cfg.rules.maxRetries
  {
    var r :| r in c.records && r.receivedAt + n * Gap(cfg) <= now;
    var i :| 0 <= i < |c.records| && c.records[i] == r;
    assert AgeSecs(now, c.records[i].receivedAt) < cfg.rules.pendingTimeoutSecs;
    if cfg.rules.maxRetries - 1 <= n { GapsGrow(cfg.rules.maxRetries - 1, n, Gap(cfg)); }
  }

  function Attempts(c: Case): nat { if c.row.None? then 0 else c.row.value.retryCount }

  lemma OldAtAttempt(cfg: Config, c: Case, now: int)
    requires Aged(cfg, c) && Arrived(c, now) && Rested(cfg, c, now) && c.records != []
    ensures OldBy(c, Attempts(c) * Gap(cfg), now)
  {
    var n := Attempts(c);
    if n == 0 {
      assert c.records[0] in c.records;
    } else {
      GapsAdd(n, Gap(cfg));
      var q :| q in c.records && q.receivedAt + (n - 1) * Gap(cfg) <= c.row.value.lastProcessedAt.value;
      assert q.receivedAt + n * Gap(cfg) <= now;
    }
  }

  lemma AttemptedAges(cfg: Config, c: Case, d: Case, s: Status, now: int)
    requires OutlastsTimeout(cfg) && c.records != [] && OldBy(c, Attempts(c) * Gap(cfg), now)
    requires Attempted(c, d, cfg.rules, s) && (s == PENDING <==> !Decided(c.records, cfg.rules, now))
    requires d.row.value.lastProcessedAt == Some(now)
    ensures Aged(cfg, d)
  {
    if s == PENDING {
      NotTheLast(cfg, c, Attempts(c), now);
      assert OldBy(d, Attempts(c) * Gap(cfg), now);
    }
  }

  lemma AttemptAges(cfg: Config, c: Case, rd: Reading, now: int)
    requires OutlastsTimeout(cfg) && Aged(cfg, c) && Arrived(c, now) && Rested(cfg, c, now) && IsReading(rd, c.records)
    ensures Aged(cfg, ReconcileOne(c, cfg.rules, rd, now).c)
    ensures ReconcileOne(c, cfg.rules, rd, now).c.records == c.records
  {
    hide ReconcileOne, Aged, Arrived, Rested, OldBy, OutlastsTimeout, Decided;
    ReconcileAttempts(c, cfg.rules, rd, now);
    var r := ReconcileOne(c, cfg.rules, rd, now);
    if c.records != [] && !r.failed {
      ReconcileStamps(c, cfg.rules, rd, now);
      OldAtAttempt(cfg, c, now);
      var s :| Attempted(c, r.c, cfg.rules, s) && (s == PENDING <==> !Decided(c.records, cfg.rules, now));
      AttemptedAges(cfg, c, r.c, s, now);
    }
  }

  lemma WorkerRested(cfg: Config, c: Case, now: int)
    requires NeedsWork(c, BackoffCutoff(cfg, now)) && Aged(cfg, c)
    ensures Rested(cfg, c, now)
  {}

  lemma RetriggerAges(cfg: Config, c: Case, rd: Reading, now: int)
    requires OutlastsTimeout(cfg) && Aged(cfg, c) && Arrived(c, now) && IsReading(rd, c.records)
    ensures Aged(cfg, ReTriggerMatch(c, cfg.rules, rd, now).c)
    ensures ReTriggerMatch(c, cfg.rules, rd, now).c.records == c.records
  {
    AttemptAges(cfg, ResetCase(c), rd, now);
  }

  /** The worker's reaction touches the row only to resolve it. */
  lemma AfterEngineRow(c: Case, cfg: Config, q: QueueRow, reply: EngineReply, picked: Option<Source>, now: int)
    ensures var d := AfterEngine(c, cfg, q, reply, picked, now);
      d.records == c.records && (d.row == c.row || (c.row.Some? && d.HasStatus(RESOLVED)))
  {}

  lemma RowKeptAges(cfg: Config, c: Case, d: Case)
    requires Aged(cfg, c) && d.records == c.records && (d.row == c.row || (c.row.Some? && d.HasStatus(RESOLVED)))
    ensures Aged(cfg, d)
  {
    if d.HasStatus(PENDING) && 0 < d.row.value.retryCount {
      assert OldBy(c, (c.row.value.retryCount - 1) * Gap(cfg), c.row.value.lastProcessedAt.value);
    }
  }

  lemma RetryAges(cfg: Config, c: Case, rpc: Rpc, rd: Reading, picked: Option<Source>, now: int)
    requires OutlastsTimeout(cfg) && Aged(cfg, c) && Arrived(c, now) && c.entry.Some? && IsReading(rd, c.records)
    ensures Aged(cfg, RetryOne(c, cfg, rpc, rd, picked, now))
    ensures RetryOne(c, cfg, rpc, rd, picked, now).records == c.records
  {
    RetriggerAges(cfg, c, rd, now);
    var called := EngineCall(c, cfg.rules, rpc, rd, now);
    AfterEngineRow(called.c, cfg, c.entry.value, called.reply, picked, now);
    hide Aged, ReTriggerMatch, AfterEngine;
    RowKeptAges(cfg, called.c, AfterEngine(called.c, cfg, c.entry.value, called.reply, picked, now));
  }

  lemma IngestAges(cfg: Config, c: Case, view: RecordView)
    requires Aged(cfg, c)
    ensures Aged(cfg, c.InsertRecord(view))
  {
    var d := c.InsertRecord(view);
    assert forall r :: r in c.records ==> r in d.records;
  }

  lemma ActionAges(cfg: Config, c: Case, a: Action, now: int)
    requires OutlastsTimeout(cfg) && Aged(cfg, c) && Arrived(c, now) && Enabled(cfg, c, a, now)
    requires a.Ingest? ==> a.view.receivedAt <= now
    ensures Aged(cfg, After(cfg, c, a, now)) && Arrived(After(cfg, c, a, now), now)
  {
    match a
    case Ingest(view) => IngestAges(cfg, c, view);
    case WorkerVisit(rd) =>
      WorkerRested(cfg, c, now);
      AttemptAges(cfg, c, rd, now);
    case Query(rd) => if c.row.None? { AttemptAges(cfg, c, rd, now); }
    case Retrigger(rd) => RetriggerAges(cfg, c, rd, now);
    case RetryVisit(rpc, rd, picked) => RetryAges(cfg, c, rpc, rd, picked, now);
    case _ =>
  }

  lemma {:induction false} RunAges(cfg: Config, s: State, steps: seq<Step>, ref: Ref)
    requires OutlastsTimeout(cfg) && IsRun(cfg, s, steps) && Timely(cfg, s, steps)
    requires Aged(cfg, At(s, ref)) && Arrived(At(s, ref), s.now)
    ensures Aged(cfg, At(End(cfg, s, steps), ref))
    decreases |steps|
  {
    if steps != [] {
      if steps[0].On? && steps[0].ref == ref { ActionAges(cfg, At(s, ref), steps[0].action, s.now); }
      RunAges(cfg, Next(cfg, s, steps[0]), steps[1..], ref);
    }
  }

  /** In that case the timeout does what it is documented to do: a PENDING transaction keeps attempts,
      and some later poll of the worker is due and finds it decided. */
  lemma Escalates(cfg: Config, now: int, steps: seq<Step>, ref: Ref) returns (later: int)
    requires OutlastsTimeout(cfg) && IsRun(cfg, Empty(now), steps) && Timely(cfg, Empty(now), steps)
    requires At(End(cfg, Empty(now), steps), ref).HasStatus(PENDING)
    ensures var e := End(cfg, Empty(now), steps);
      var c := At(e, ref);
      e.now <= later && NeedsWork(c, BackoffCutoff(cfg, later)) && Decided(c.records, cfg.rules, later)
  {
    RunAges(cfg, Empty(now), steps, ref);
    ReachableStates(cfg, now, steps, ref);
    var e := End(cfg, Empty(now), steps);
    later := LaterDue(cfg, At(e, ref), e.now);
  }

  lemma LaterDue(cfg: Config, c: Case, now: int) returns (later: int)
    requires Aged(cfg, c) && Counted(cfg, c) && c.HasStatus(PENDING)
    ensures now <= later && NeedsWork(c, BackoffCutoff(cfg, later)) && Decided(c.records, cfg.rules, later)
  {
    var last := if c.row.value.lastProcessedAt.Some? then c.row.value.lastProcessedAt.value else now;
    var first := c.records[0].receivedAt;
    later := Max(Max(now, last) + Gap(cfg), first + 1000 * cfg.rules.pendingTimeoutSecs);
    assert AgeSecs(later, c.records[0].receivedAt) >= cfg.rules.pendingTimeoutSecs;
  }

  // ---------------------------------------------------------------- giving up before the timeout

  /** In some run with timely records a transaction gets stuck. */
  ghost predicate CanStick(cfg: Config) {
    exists now, steps, ref :: SticksAt(cfg, now, steps, ref)
  }

  ghost predicate SticksAt(cfg: Config, now: int, steps: seq<Step>, ref: Ref) {
    && IsRun(cfg, Empty(now), steps) && Timely(cfg, Empty(now), steps)
    && Stuck(At(End(cfg, Empty(now), steps), ref))
  }

  lemma {:induction false} Further(cfg: Config, s: State, steps: seq<Step>, step: Step) returns (more: seq<Step>)
    requires IsRun(cfg, s, steps) && Timely(cfg, s, steps)
    requires CanStep(cfg, End(cfg, s, steps), step) && TimelyStep(End(cfg, s, steps), step)
    ensures more == steps + [step] && IsRun(cfg, s, more) && Timely(cfg, s, more)
    ensures End(cfg, s, more) == Next(cfg, End(cfg, s, steps), step)
    decreases |steps|
  {
    hide CanStep, Next, TimelyStep;
    more := steps + [step];
    if steps == [] {
      assert more == [step] && [step][1..] == [];
      assert IsRun(cfg, Next(cfg, s, step), []);
    } else {
      assert more[1..] == steps[1..] + [step];
      var rest := Further(cfg, Next(cfg, s, steps[0]), steps[1..], step);
    }
  }

  /** A record of one source, without amount, that arrived at time 0. */
  const LONELY: RecordView := RecordView(0, 0, None, None, None, 0)

  const LONELY_READING: Reading := Reading([LONELY], [LONELY])

  lemma LonelyReading()
    ensures IsReading(LONELY_READING, [LONELY])
  {
    assert IsLatest(LONELY_READING.unique[0], [LONELY]);
    assert LONELY_READING.unique[0].source == LONELY.source;
  }

  lemma LonelyUndecided(rules: RuleSet, now: nat)
    requires now / 1000 < rules.pendingTimeoutSecs
    ensures !Decided([LONELY], rules, now)
  {}

  /** A transaction with that record alone, after n attempts the last of which was at `t`. */
  predicate Waits(cfg: Config, c: Case, n: nat, t: int) {
    && c.records == [LONELY] && c.entry.None? && c.HasStatus(PENDING)
    && c.row.value.retryCount == n && c.row.value.lastProcessedAt == Some(t)
    && c.row.value.maxRetries == cfg.rules.maxRetries
  }

  /** One more attempt before the timeout answers PENDING. */
  lemma LonelyVisit(cfg: Config, c: Case, n: nat, now: nat)
    requires c.records == [LONELY] && c.entry.None? && now / 1000 < cfg.rules.pendingTimeoutSecs
    requires if n == 0 then c.row.None? else c.HasStatus(PENDING)
    requires n > 0 ==> c.row.value.retryCount == n && c.row.value.maxRetries == cfg.rules.maxRetries
    ensures Waits(cfg, ReconcileOne(c, cfg.rules, LONELY_READING, now).c, n + 1, now)
  {
    LonelyReading();
    LonelyUndecided(cfg.rules, now);
    ReconcileAttempts(c, cfg.rules, LONELY_READING, now);
    ReconcileStamps(c, cfg.rules, LONELY_READING, now);
  }

  /** Polls one gap apart, as long as they come before the timeout. */
  lemma {:induction false} PollsPending(cfg: Config, n: nat) returns (steps: seq<Step>)
    requires 1 <= n && (n == 1 || n <= cfg.rules.maxRetries)
    requires (n - 1) * Gap(cfg) / 1000 < cfg.rules.pendingTimeoutSecs
    ensures IsRun(cfg, Empty(0), steps) && Timely(cfg, Empty(0), steps)
    ensures End(cfg, Empty(0), steps).now == (n - 1) * Gap(cfg)
    ensures Waits(cfg, At(End(cfg, Empty(0), steps), 0), n, (n - 1) * Gap(cfg))
    decreases n
  {
    if n == 1 {
      steps := Further(cfg, Empty(0), [], On(0, Ingest(LONELY)));
    } else {
      GapsGrow(n - 2, n - 1, Gap(cfg));
      steps := PollsPending(cfg, n - 1);
      GapsAdd(n - 1, Gap(cfg));
      steps := Further(cfg, Empty(0), steps, Tick((n - 1) * Gap(cfg)));
    }
    steps := PollStep(cfg, steps, n - 1, (n - 1) * Gap(cfg));
  }

  lemma PollStep(cfg: Config, steps: seq<Step>, n: nat, now: nat) returns (more: seq<Step>)
    requires IsRun(cfg, Empty(0), steps) && Timely(cfg, Empty(0), steps) && End(cfg, Empty(0), steps).now == now
    requires now / 1000 < cfg.rules.pendingTimeoutSecs
    requires var c := At(End(cfg, Empty(0), steps), 0);
      if n == 0 then c == EMPTY_CASE.InsertRecord(LONELY)
      else Waits(cfg, c, n, now - Gap(cfg)) && n < cfg.rules.maxRetries
    ensures IsRun(cfg, Empty(0), more) && Timely(cfg, Empty(0), more) && End(cfg, Empty(0), more).now == now
    ensures Waits(cfg, At(End(cfg, Empty(0), more), 0), n + 1, now)
  {
    LonelyReading();
    LonelyVisit(cfg, At(End(cfg, Empty(0), steps), 0), n, now);
    hide ReconcileOne, IsReading;
    more := Further(cfg, Empty(0), steps, On(0, WorkerVisit(LONELY_READING)));
  }

  lemma GivesUp(cfg: Config)
    requires !OutlastsTimeout(cfg) && 0 < cfg.rules.pendingTimeoutSecs
    ensures CanStick(cfg)
  {
    var steps := PollsPending(cfg, Max(1, cfg.rules.maxRetries));
    assert SticksAt(cfg, 0, steps, 0);
  }

  // ---------------------------------------------------------------- no attempts and no timeout

  function Unreadable(source: Source): RecordView { RecordView(0, source, Some(Malformed), None, None, 0) }

  function AllUnreadable(sources: seq<Source>): (views: seq<RecordView>)
    ensures |views| == |sources| && forall i :: 0 <= i < |views| ==> views[i] == Unreadable(sources[i])
  {
    seq(|sources|, i requires 0 <= i < |sources| => Unreadable(sources[i]))
  }

  /** The sources of the run below: all expected ones, and at least two. */
  function Sources(rules: RuleSet): seq<Source> { rules.expectedSources + [0, 1] }

  lemma UnreadableFails(rules: RuleSet, rows: seq<RecordView>, unique: seq<RecordView>, now: int)
    requires rows == [LONELY] + AllUnreadable(Sources(rules)) && IsListing(unique, rows)
    ensures Decide(unique, rules, FirstSeen(rows), now).InvalidAmount?
  {
    var xs := Sources(rules);
    assert forall i :: 0 <= i < |xs| ==> rows[i + 1] == Unreadable(xs[i]);
    assert SourcesComplete(rows, rules) by {
      forall e | e in rules.expectedSources ensures HasSource(rows, e) {
        var i :| 0 <= i < |rules.expectedSources| && rules.expectedSources[i] == e;
        assert xs[i] == e && rows[i + 1].source == e;
      }
      var n := |rules.expectedSources|;
      assert xs[n] == 0 && xs[n + 1] == 1 && rows[n + 1].source != rows[n + 2].source;
    }
    ListingEmptyIff(unique, rows);
    ListingComplete(unique, rows, rules);
    OneIsUnreadable(rules, rows, unique);
  }

  lemma OneIsUnreadable(rules: RuleSet, rows: seq<RecordView>, unique: seq<RecordView>)
    requires rows == [LONELY] + AllUnreadable(Sources(rules)) && IsListing(unique, rows)
    ensures ParseAmounts(unique).None?
  {
    var xs, n := Sources(rules), |rules.expectedSources|;
    assert xs[n + 1] == 1 && rows[n + 2] == Unreadable(1);
    assert HasSource(unique, rows[n + 2].source);
    var k :| 0 <= k < |unique| && unique[k].source == 1;
    assert IsLatest(unique[k], rows);
    var i :| 0 <= i < |rows| && rows[i] == unique[k];
    assert !Parses(unique[k]);
  }

  lemma {:induction false} IngestAll(cfg: Config, steps: seq<Step>, sources: seq<Source>) returns (more: seq<Step>)
    requires IsRun(cfg, Empty(0), steps) && Timely(cfg, Empty(0), steps) && End(cfg, Empty(0), steps).now == 0
    ensures IsRun(cfg, Empty(0), more) && Timely(cfg, Empty(0), more) && End(cfg, Empty(0), more).now == 0
    ensures var c := At(End(cfg, Empty(0), steps), 0);
      At(End(cfg, Empty(0), more), 0) == c.(records := c.records + AllUnreadable(sources))
    decreases |sources|
  {
    if sources == [] {
      more := steps;
      assert AllUnreadable(sources) == [];
    } else {
      var n := |sources| - 1;
      more := IngestAll(cfg, steps, sources[..n]);
      more := Further(cfg, Empty(0), more, On(0, Ingest(Unreadable(sources[n]))));
      assert AllUnreadable(sources) == AllUnreadable(sources[..n]) + [Unreadable(sources[n])];
    }
  }

  lemma LonelyEscalates(cfg: Config, c: Case)
    requires c.records == [LONELY] && c.row.None? && c.entry.None? && cfg.rules.pendingTimeoutSecs == 0
    ensures var d := ReconcileOne(c, cfg.rules, LONELY_READING, 0).c;
      d.row.Some? && d.entry.None? && d.records == c.records && d.row.value.maxRetries == cfg.rules.maxRetries
  {
    LonelyReading();
    assert Decide([LONELY], cfg.rules, FirstSeen([LONELY]), 0).Ok?;
    ReconcileAttempts(c, cfg.rules, LONELY_READING, 0);
  }

  /** A transaction escalated at once, after which its sources send amounts that do not parse. */
  lemma EscalatedThenUnreadable(cfg: Config) returns (steps: seq<Step>)
    requires cfg.rules.pendingTimeoutSecs == 0
    ensures IsRun(cfg, Empty(0), steps) && Timely(cfg, Empty(0), steps) && End(cfg, Empty(0), steps).now == 0
    ensures var c := At(End(cfg, Empty(0), steps), 0);
      && c.records == [LONELY] + AllUnreadable(Sources(cfg.rules)) && c.entry.None?
      && c.row.Some? && c.row.value.maxRetries == cfg.rules.maxRetries
  {
    LonelyReading();
    steps := Further(cfg, Empty(0), [], On(0, Ingest(LONELY)));
    LonelyEscalates(cfg, At(End(cfg, Empty(0), steps), 0));
    hide ReconcileOne, IsReading;
    steps := Further(cfg, Empty(0), steps, On(0, WorkerVisit(LONELY_READING)));
    steps := IngestAll(cfg, steps, Sources(cfg.rules));
  }

  /** Without attempts to spend, a retrigger that fails on an amount leaves the transaction stuck. */
  lemma FailedRetriggerSticks(cfg: Config)
    requires cfg.rules.maxRetries <= 0 && cfg.rules.pendingTimeoutSecs == 0
    ensures CanStick(cfg)
  {
    hide *;
    var steps := EscalatedThenUnreadable(cfg);
    var unique := ListingExists(At(End(cfg, Empty(0), steps), 0).records);
    LastRetrigger(cfg, steps, Reading(At(End(cfg, Empty(0), steps), 0).records, unique));
  }

  lemma LastRetrigger(cfg: Config, steps: seq<Step>, rd: Reading)
    requires IsRun(cfg, Empty(0), steps) && Timely(cfg, Empty(0), steps) && End(cfg, Empty(0), steps).now == 0
    requires var c := At(End(cfg, Empty(0), steps), 0);
      && c.records == [LONELY] + AllUnreadable(Sources(cfg.rules)) && c.entry.None?
      && c.row.Some? && c.row.value.maxRetries == cfg.rules.maxRetries <= 0
      && rd.rows == c.records && IsListing(rd.unique, rd.rows)
    ensures CanStick(cfg)
  {
    var c := At(End(cfg, Empty(0), steps), 0);
    UnreadableReading(cfg.rules, c.records, rd);
    RetriggerSticks(cfg, c, rd);
    hide ReTriggerMatch, IsReading, AllUnreadable, IsListing, Sources, Stuck;
    var more := Further(cfg, Empty(0), steps, On(0, Retrigger(rd)));
    assert SticksAt(cfg, 0, more, 0);
  }

  lemma UnreadableReading(rules: RuleSet, records: seq<RecordView>, rd: Reading)
    requires records == [LONELY] + AllUnreadable(Sources(rules)) && rd.rows == records && IsListing(rd.unique, rd.rows)
    ensures IsReading(rd, records)
  {
    hide IsListing;
    assert forall i :: 0 <= i < |records| ==> records[i].receivedAt == 0;
  }

  lemma RetriggerSticks(cfg: Config, c: Case, rd: Reading)
    requires c.records == [LONELY] + AllUnreadable(Sources(cfg.rules)) && c.row.Some? && c.entry.None?
    requires rd.rows == c.records && IsListing(rd.unique, rd.rows) && c.row.value.maxRetries <= 0
    ensures Stuck(ReTriggerMatch(c, cfg.rules, rd, 0).c)
  {
    hide Decide, AllUnreadable, IsListing, Sources, FirstSeen;
    UnreadableFails(cfg.rules, rd.rows, rd.unique, 0);
  }

  // ---------------------------------------------------------------- the exact condition

  /** No run leaves a PENDING transaction without attempts before the timeout could apply, exactly when
      attempts are configured and the last of them comes no earlier than the timeout. */
  lemma EscalatesIff(cfg: Config)
    ensures !CanStick(cfg) <==> OutlastsTimeout(cfg)
  {
    if OutlastsTimeout(cfg) {
      forall now, steps, ref ensures !SticksAt(cfg, now, steps, ref) { NeverStuck(cfg, now, steps, ref); }
    } else if 0 < cfg.rules.pendingTimeoutSecs {
      GivesUp(cfg);
    } else {
      FailedRetriggerSticks(cfg);
    }
  }

  lemma NeverStuck(cfg: Config, now: int, steps: seq<Step>, ref: Ref)
    requires OutlastsTimeout(cfg)
    ensures !SticksAt(cfg, now, steps, ref)
  {
    if IsRun(cfg, Empty(now), steps) && Timely(cfg, Empty(now), steps) {
      RunAges(cfg, Empty(now), steps, ref);
      ReachableStates(cfg, now, steps, ref);
    }
  }

  /** The shipped configuration gives up: three attempts half a minute apart against five minutes. */
  lemma ShippedDefaultsGiveUp(cfg: Config)
    requires cfg.rules.maxRetries == 3 && cfg.retryBackoffSecs == 30 && cfg.rules.pendingTimeoutSecs == 300
    ensures CanStick(cfg)
  {
    EscalatesIff(cfg);
  }
}
