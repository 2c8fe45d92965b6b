/** Whole runs of the system, one uninterrupted operation at a time: every service works on the
    shared tables, time passes, and each step touches one transaction. */
module Protocol {
  import opened Wrappers
  import opened Rules
  import opened Matcher
  import opened MatcherLaws
  import opened Cases
  import opened Backoff
  import opened Transitions
  import opened Invariants

  datatype State = State(cases: map<Ref, Case>, now: int)

  datatype Step = Tick(later: int) | On(ref: Ref, action: Action)

  function At(s: State, ref: Ref): Case {
    if ref in s.cases then s.cases[ref] else EMPTY_CASE
  }

  ghost predicate CanStep(cfg: Config, s: State, step: Step) {
    match step
    case Tick(later) => s.now <= later
    case On(ref, a) => Enabled(cfg, At(s, ref), a, s.now)
  }

  ghost function Next(cfg: Config, s: State, step: Step): (s': State)
    requires CanStep(cfg, s, step)
    ensures s.now <= s'.now
    ensures step.On? ==> forall r :: r != step.ref ==> At(s', r) == At(s, r)
    ensures step.On? ==> At(s', step.ref) == After(cfg, At(s, step.ref), step.action, s.now)
    ensures step.Tick? ==> s'.cases == s.cases
  {
    match step
    case Tick(later) => s.(now := later)
    case On(ref, a) => s.(cases := s.cases[ref := After(cfg, At(s, ref), a, s.now)])
  }

  ghost predicate IsRun(cfg: Config, s: State, steps: seq<Step>)
    decreases |steps|
  {
    steps == [] || (CanStep(cfg, s, steps[0]) && IsRun(cfg, Next(cfg, s, steps[0]), steps[1..]))
  }

  ghost function End(cfg: Config, s: State, steps: seq<Step>): State
    requires IsRun(cfg, s, steps)
    decreases |steps|
  {
    if steps == [] then s else End(cfg, Next(cfg, s, steps[0]), steps[1..])
  }

  ghost predicate AllSound(cfg: Config, s: State) {
    forall ref :: SoundAt(cfg, s, ref)
  }

  ghost predicate SoundAt(cfg: Config, s: State, ref: Ref) { Sound(cfg, At(s, ref), s.now) }

  function Empty(now: int): State { State(map[], now) }

  lemma EmptySound(cfg: Config, now: int)
    ensures AllSound(cfg, Empty(now))
  {}

  lemma StepKeepsSound(cfg: Config, s: State, step: Step)
    requires AllSound(cfg, s) && CanStep(cfg, s, step)
    ensures AllSound(cfg, Next(cfg, s, step))
  {
    var s' := Next(cfg, s, step);
    forall ref ensures SoundAt(cfg, s', ref) {
      assert SoundAt(cfg, s, ref);
      match step
      case Tick(later) => TimeKeepsSound(cfg, At(s, ref), s.now, later);
      case On(r, a) => if r == ref { ActionKeepsSound(cfg, At(s, ref), a, s.now); }
    }
  }

  lemma {:induction false} RunKeepsSound(cfg: Config, s: State, steps: seq<Step>)
    requires AllSound(cfg, s) && IsRun(cfg, s, steps)
    ensures AllSound(cfg, End(cfg, s, steps))
    decreases |steps|
  {
    if steps != [] {
      StepKeepsSound(cfg, s, steps[0]);
      RunKeepsSound(cfg, Next(cfg, s, steps[0]), steps[1..]);
    }
  }

  /** Every state reachable from empty tables satisfies, for every transaction: a RESOLVED row has
      a resolution record and no open queue entry, the audit log replays to the status, no attempt
      answers PENDING after one that decided, the detail rows agree with the state row, and the
      attempt counter respects its limit. */
  lemma ReachableStates(cfg: Config, now: int, steps: seq<Step>, ref: Ref)
    requires IsRun(cfg, Empty(now), steps)
    ensures var c := At(End(cfg, Empty(now), steps), ref);
      Final(c) && Backed(c) && Replays(c) && NeverUndecided(c.log) && Indexed(c) && Counted(cfg, c)
  {
    EmptySound(cfg, now);
    RunKeepsSound(cfg, Empty(now), steps);
    var s := End(cfg, Empty(now), steps);
    assert SoundAt(cfg, s, ref);
  }

  // ---------------------------------------------------------------- append-only tables

  predicate Extends(c: Case, d: Case) {
    c.records <= d.records && c.log <= d.log && (c.resolution.Some? ==> d.resolution.Some?)
    && (c.row.Some? ==> d.row.Some?)
  }

  lemma ReconcileExtends(c: Case, rules: RuleSet, rd: Reading, now: int)
    requires IsReading(rd, c.records)
    ensures Extends(c, ReconcileOne(c, rules, rd, now).c)
  {}

  lemma ExhaustedExtends(cfg: Config, c: Case, picked: Option<Source>)
    ensures Extends(c, HandleExhausted(c, cfg, picked))
  {}

  lemma AfterEngineExtends(cfg: Config, c: Case, fetched: QueueRow, reply: EngineReply, picked: Option<Source>, now: int)
    ensures Extends(c, AfterEngine(c, cfg, fetched, reply, picked, now))
  {
    ExhaustedExtends(cfg, c, picked);
  }

  lemma RetriggerExtends(c: Case, rules: RuleSet, rd: Reading, now: int)
    requires IsReading(rd, c.records)
    ensures Extends(c, ReTriggerMatch(c, rules, rd, now).c)
  {}

  lemma ExtendsTrans(c: Case, d: Case, e: Case)
    requires Extends(c, d) && Extends(d, e)
    ensures Extends(c, e)
  {}

  lemma RetryExtends(cfg: Config, c: Case, rpc: Rpc, rd: Reading, picked: Option<Source>, now: int)
    requires c.entry.Some? && IsReading(rd, c.records)
    ensures Extends(c, RetryOne(c, cfg, rpc, rd, picked, now))
  {
    var called := EngineCall(c, cfg.rules, rpc, rd, now);
    RetriggerExtends(c, cfg.rules, rd, now);
    AfterEngineExtends(cfg, called.c, c.entry.value, called.reply, picked, now);
    ExtendsTrans(c, called.c, AfterEngine(called.c, cfg, c.entry.value, called.reply, picked, now));
  }

  lemma ActionExtends(cfg: Config, c: Case, a: Action, now: int)
    requires Enabled(cfg, c, a, now)
    ensures Extends(c, After(cfg, c, a, now))
  {
    match a
    case WorkerVisit(rd) => ReconcileExtends(c, cfg.rules, rd, now);
    case Query(rd) => ReconcileExtends(c, cfg.rules, rd, now);
    case Retrigger(rd) => RetriggerExtends(c, cfg.rules, rd, now);
    case RetryVisit(rpc, rd, picked) => RetryExtends(cfg, c, rpc, rd, picked, now);
    case _ =>
  }

  /** Records and audit entries are never removed or changed, resolutions and rows never dropped. */
  lemma {:induction false} RunExtends(cfg: Config, s: State, steps: seq<Step>, ref: Ref)
    requires IsRun(cfg, s, steps)
    ensures Extends(At(s, ref), At(End(cfg, s, steps), ref))
    ensures s.now <= End(cfg, s, steps).now
    decreases |steps|
  {
    if steps != [] {
      var s' := Next(cfg, s, steps[0]);
      if steps[0].On? && steps[0].ref == ref { ActionExtends(cfg, At(s, ref), steps[0].action, s.now); }
      RunExtends(cfg, s', steps[1..], ref);
    }
  }

  // ---------------------------------------------------------------- resolution is final

  /** In a sound case a RESOLVED row is out of reach of the engine worker and the retry worker,
      and nobody but an external retrigger changes it. */
  lemma ResolvedUntouched(cfg: Config, c: Case, a: Action, now: int)
    requires Sound(cfg, c, now) && c.HasStatus(RESOLVED) && Enabled(cfg, c, a, now)
    ensures !a.WorkerVisit? && !a.RetryVisit?
    ensures !a.Retrigger? ==> After(cfg, c, a, now).row == c.row
  {}

  predicate NoRetrigger(steps: seq<Step>, ref: Ref) {
    steps == [] || (!(steps[0].On? && steps[0].ref == ref && steps[0].action.Retrigger?) && NoRetrigger(steps[1..], ref))
  }

  /** Over whole runs: until an external retrigger, the row of a RESOLVED transaction stays as is. */
  lemma {:induction false} ResolutionIsFinal(cfg: Config, s: State, steps: seq<Step>, ref: Ref)
    requires AllSound(cfg, s) && IsRun(cfg, s, steps) && At(s, ref).HasStatus(RESOLVED)
    requires NoRetrigger(steps, ref)
    ensures At(End(cfg, s, steps), ref).row == At(s, ref).row
    decreases |steps|
  {
    if steps != [] {
      var s' := Next(cfg, s, steps[0]);
      assert SoundAt(cfg, s, ref);
      if steps[0].On? && steps[0].ref == ref { ResolvedUntouched(cfg, At(s, ref), steps[0].action, s.now); }
      StepKeepsSound(cfg, s, steps[0]);
      ResolutionIsFinal(cfg, s', steps[1..], ref);
    }
  }

  // ---------------------------------------------------------------- the retry queue drains

  /** Visits an entry can still take when the engine answers. */
  function VisitsLeft(q: QueueRow): (n: nat)
    ensures 1 <= n
  {
    Max(1, q.maxAttempts - q.attemptCount)
  }

  /** A visit whose engine call goes through. */
  ghost predicate Answered(cfg: Config, c: Case, a: Action, now: int) {
    a.RetryVisit? && a.rpc == Delivered && !ReconcileOne(ResetCase(c), cfg.rules, a.rd, now).failed
  }

  /** The engine then answers MATCHED or MISMATCHED: the worker's PENDING branch is never taken. */
  lemma EngineDecides(cfg: Config, c: Case, a: Action, now: int)
    requires Sound(cfg, c, now) && Enabled(cfg, c, a, now) && Answered(cfg, c, a, now)
    ensures EngineCall(c, cfg.rules, a.rpc, a.rd, now).reply in {Answer(MATCHED), Answer(MISMATCHED)}
  {
    hide Decide, Indexed, Replays, Final, Backed, NeverUndecided;
    assert ShowsDecision(c);
    assert c.records != [];
    ReconcileAttempts(ResetCase(c), cfg.rules, a.rd, now);
  }

  /** What the worker's reaction does to the open entry it fetched. */
  lemma AfterEngineEntry(cfg: Config, c: Case, reply: EngineReply, picked: Option<Source>, now: int)
    requires c.Queued()
    ensures var q, d := c.entry.value, AfterEngine(c, cfg, c.entry.value, reply, picked, now);
      && d.entry.Some?
      && (d.Queued() ==> d.entry == c.IncrementRetryAttempt(NextRetryTime(cfg.retry, q.attemptCount + 1, now), now).entry)
      && (d.Queued() && reply == Answer(MISMATCHED) ==> q.attemptCount + 1 < q.maxAttempts)
      && (reply == Answer(MATCHED) ==> !d.Queued())
  {}

  lemma EngineLeavesEntry(c: Case, rules: RuleSet, rpc: Rpc, rd: Reading, now: int)
    ensures EngineCall(c, rules, rpc, rd, now).c.entry == c.entry
  {}

  lemma RetryEntry(cfg: Config, c: Case, rpc: Rpc, rd: Reading, picked: Option<Source>, now: int)
    requires c.Queued()
    ensures var q, d := c.entry.value, RetryOne(c, cfg, rpc, rd, picked, now);
      && d.entry.Some?
      && (d.Queued() ==> d.entry == c.IncrementRetryAttempt(NextRetryTime(cfg.retry, q.attemptCount + 1, now), now).entry)
  {
    hide EngineCall, AfterEngine, NextRetryTime;
    EngineLeavesEntry(c, cfg.rules, rpc, rd, now);
    var called := EngineCall(c, cfg.rules, rpc, rd, now);
    AfterEngineEntry(cfg, called.c, called.reply, picked, now);
  }

  /** An answered visit closes the entry or uses up one of its visits. */
  lemma AnsweredVisitProgress(cfg: Config, c: Case, a: Action, now: int)
    requires Sound(cfg, c, now) && Enabled(cfg, c, a, now) && Answered(cfg, c, a, now)
    ensures var d := After(cfg, c, a, now);
      d.entry.Some? && (d.Queued() ==> VisitsLeft(d.entry.value) < VisitsLeft(c.entry.value))
  {
    EngineDecides(cfg, c, a, now);
    EngineLeavesEntry(c, cfg.rules, a.rpc, a.rd, now);
    var called := EngineCall(c, cfg.rules, a.rpc, a.rd, now);
    AfterEngineEntry(cfg, called.c, called.reply, a.picked, now);
  }

  /** Nothing but a new enqueue gives an open entry more visits. */
  lemma VisitsLeftShrink(cfg: Config, c: Case, a: Action, now: int)
    requires Sound(cfg, c, now) && Enabled(cfg, c, a, now) && c.Queued() && !a.EnqueueRetry?
    ensures var d := After(cfg, c, a, now);
      d.entry.Some? && (d.Queued() ==> VisitsLeft(d.entry.value) <= VisitsLeft(c.entry.value))
  {
    match a
    case WorkerVisit(rd) => ReconcileAttempts(c, cfg.rules, rd, now);
    case Query(rd) => ReconcileAttempts(c, cfg.rules, rd, now);
    case Retrigger(rd) => RetriggerKeeps(cfg, c, rd, now);
    case RetryVisit(rpc, rd, picked) => RetryEntry(cfg, c, rpc, rd, picked, now);
    case _ =>
  }

  ghost function AnsweredVisits(cfg: Config, s: State, steps: seq<Step>, ref: Ref): nat
    requires IsRun(cfg, s, steps)
    decreases |steps|
  {
    if steps == [] then 0 else
      (if steps[0].On? && steps[0].ref == ref && Answered(cfg, At(s, ref), steps[0].action, s.now) then 1 else 0)
      + AnsweredVisits(cfg, Next(cfg, s, steps[0]), steps[1..], ref)
  }

  ghost predicate QueuedThroughout(cfg: Config, s: State, steps: seq<Step>, ref: Ref)
    requires IsRun(cfg, s, steps)
    decreases |steps|
  {
    At(s, ref).Queued() && (steps == [] || QueuedThroughout(cfg, Next(cfg, s, steps[0]), steps[1..], ref))
  }

  predicate NoEnqueue(steps: seq<Step>, ref: Ref) {
    steps == [] || (!(steps[0].On? && steps[0].ref == ref && steps[0].action.EnqueueRetry?) && NoEnqueue(steps[1..], ref))
  }

  /** Cross-service termination: while an entry stays open and is not enqueued again, the engine
      answers fewer visits than max(1, max_attempts - attempt_count); lost engine calls in between
      do not help it. */
  lemma {:induction false} RetryTerminates(cfg: Config, s: State, steps: seq<Step>, ref: Ref)
    requires AllSound(cfg, s) && IsRun(cfg, s, steps) && NoEnqueue(steps, ref)
    requires QueuedThroughout(cfg, s, steps, ref)
    ensures At(End(cfg, s, steps), ref).Queued()
    ensures AnsweredVisits(cfg, s, steps, ref) + VisitsLeft(At(End(cfg, s, steps), ref).entry.value)
      <= VisitsLeft(At(s, ref).entry.value)
    decreases |steps|
  {
    if steps != [] {
      var s' := Next(cfg, s, steps[0]);
      assert SoundAt(cfg, s, ref);
      if steps[0].On? && steps[0].ref == ref {
        VisitsLeftShrink(cfg, At(s, ref), steps[0].action, s.now);
        if Answered(cfg, At(s, ref), steps[0].action, s.now) {
          AnsweredVisitProgress(cfg, At(s, ref), steps[0].action, s.now);
        }
      }
      StepKeepsSound(cfg, s, steps[0]);
      RetryTerminates(cfg, s', steps[1..], ref);
    }
  }

  predicate Shut(c: Case) { c.entry.Some? && !c.Queued() }

  /** Without an enqueue a shut entry stays shut. */
  lemma ShutKept(cfg: Config, c: Case, a: Action, now: int)
    requires Shut(c) && Enabled(cfg, c, a, now) && !a.EnqueueRetry?
    ensures Shut(After(cfg, c, a, now))
  {
    match a
    case WorkerVisit(rd) => ReconcileAttempts(c, cfg.rules, rd, now);
    case Query(rd) => ReconcileAttempts(c, cfg.rules, rd, now);
    case Retrigger(rd) => ReconcileAttempts(ResetCase(c), cfg.rules, rd, now);
    case _ =>
  }

  lemma {:induction false} ShutForGood(cfg: Config, s: State, steps: seq<Step>, ref: Ref)
    requires IsRun(cfg, s, steps) && NoEnqueue(steps, ref) && Shut(At(s, ref))
    ensures Shut(At(End(cfg, s, steps), ref))
    decreases |steps|
  {
    if steps != [] {
      if steps[0].On? && steps[0].ref == ref { ShutKept(cfg, At(s, ref), steps[0].action, s.now); }
      ShutForGood(cfg, Next(cfg, s, steps[0]), steps[1..], ref);
    }
  }

  /** An entry that is not open throughout a run without enqueues ends up shut. */
  lemma {:induction false} EndsShut(cfg: Config, s: State, steps: seq<Step>, ref: Ref)
    requires AllSound(cfg, s) && IsRun(cfg, s, steps) && NoEnqueue(steps, ref)
    requires At(s, ref).Queued() && !QueuedThroughout(cfg, s, steps, ref)
    ensures Shut(At(End(cfg, s, steps), ref))
    decreases |steps|
  {
    var s' := Next(cfg, s, steps[0]);
    assert SoundAt(cfg, s, ref);
    StepKeepsSound(cfg, s, steps[0]);
    if steps[0].On? && steps[0].ref == ref { VisitsLeftShrink(cfg, At(s, ref), steps[0].action, s.now); }
    if At(s', ref).Queued() {
      EndsShut(cfg, s', steps[1..], ref);
    } else {
      ShutForGood(cfg, s', steps[1..], ref);
    }
  }

  /** In other words, that many answered visits leave the entry RESOLVED or EXHAUSTED. */
  lemma EnoughVisitsClose(cfg: Config, s: State, steps: seq<Step>, ref: Ref)
    requires AllSound(cfg, s) && IsRun(cfg, s, steps) && NoEnqueue(steps, ref) && At(s, ref).Queued()
    requires VisitsLeft(At(s, ref).entry.value) <= AnsweredVisits(cfg, s, steps, ref)
    ensures var c := At(End(cfg, s, steps), ref); c.entry.Some? && c.entry.value.status in {DONE, EXHAUSTED}
  {
    if QueuedThroughout(cfg, s, steps, ref) {
      RetryTerminates(cfg, s, steps, ref);
    } else {
      EndsShut(cfg, s, steps, ref);
    }
  }

  /** Visits that the engine does not answer, because the call is lost or because an amount does not
      parse, count but never close the entry, whatever its limit. */
  lemma UnansweredStaysOpen(cfg: Config, c: Case, rpc: Rpc, rd: Reading, picked: Option<Source>, now: int)
    requires c.Queued() && EngineCall(c, cfg.rules, rpc, rd, now).reply == Failed
    ensures var d := RetryOne(c, cfg, rpc, rd, picked, now);
      d.Queued() && d.entry.value.attemptCount == c.entry.value.attemptCount + 1
  {
    EngineLeavesEntry(c, cfg.rules, rpc, rd, now);
  }

  lemma UnansweredFails(cfg: Config, c: Case, a: Action, now: int)
    requires Sound(cfg, c, now) && Enabled(cfg, c, a, now) && a.RetryVisit? && !Answered(cfg, c, a, now)
    ensures EngineCall(c, cfg.rules, a.rpc, a.rd, now).reply == Failed
  {
    if a.rpc == Delivered { ReconcileAttempts(ResetCase(c), cfg.rules, a.rd, now); }
  }

  lemma AnsweredCloses(cfg: Config, c: Case, s: Status, picked: Option<Source>, now: int)
    requires c.Queued() && (s == MATCHED || s == MISMATCHED)
    ensures AfterEngine(c, cfg, c.entry.value, Answer(s), picked, now).Queued()
      <==> s == MISMATCHED && c.entry.value.attemptCount + 1 < c.entry.value.maxAttempts
  {}

  /** When a visit closes the entry, exactly: the engine answers, and it answers MATCHED or the
      attempts are used up. */
  lemma VisitClosesIff(cfg: Config, c: Case, a: Action, now: int)
    requires Sound(cfg, c, now) && Enabled(cfg, c, a, now) && a.RetryVisit?
    ensures var q := c.entry.value;
      !After(cfg, c, a, now).Queued() <==>
      (Answered(cfg, c, a, now) &&
       (EngineCall(c, cfg.rules, a.rpc, a.rd, now).reply == Answer(MATCHED) || q.maxAttempts <= q.attemptCount + 1))
  {
    var called := EngineCall(c, cfg.rules, a.rpc, a.rd, now);
    EngineLeavesEntry(c, cfg.rules, a.rpc, a.rd, now);
    if Answered(cfg, c, a, now) {
      EngineDecides(cfg, c, a, now);
      AnsweredCloses(cfg, called.c, called.reply.status, a.picked, now);
    } else {
      UnansweredFails(cfg, c, a, now);
      UnansweredStaysOpen(cfg, c, a.rpc, a.rd, a.picked, now);
    }
  }

  // ---------------------------------------------------------------- spacing of the retries

  function IsVisit(step: Step, ref: Ref): nat {
    if step.On? && step.ref == ref && step.action.RetryVisit? then 1 else 0
  }

  function Visits(steps: seq<Step>, ref: Ref): nat {
    if steps == [] then 0 else IsVisit(steps[0], ref) + Visits(steps[1..], ref)
  }

  /** A visit that leaves the entry open counts the attempt and moves it by the next delay. */
  lemma VisitReschedules(cfg: Config, c: Case, a: Action, now: int)
    requires Sound(cfg, c, now) && Enabled(cfg, c, a, now) && a.RetryVisit? && After(cfg, c, a, now).Queued()
    ensures var q, q' := c.entry.value, After(cfg, c, a, now).entry.value;
      q.nextRetryAt <= now && q'.attemptCount == q.attemptCount + 1
      && q'.nextRetryAt == now + 1000 * Delay(cfg.retry, q.attemptCount + 1)
  {
    RetryEntry(cfg, c, a.rpc, a.rd, a.picked, now);
  }

  lemma OthersKeepSchedule(cfg: Config, c: Case, a: Action, now: int)
    requires Sound(cfg, c, now) && Enabled(cfg, c, a, now) && c.Queued()
    requires !a.RetryVisit? && !a.EnqueueRetry? && After(cfg, c, a, now).Queued()
    ensures After(cfg, c, a, now).entry == c.entry
  {
    match a
    case WorkerVisit(rd) => ReconcileAttempts(c, cfg.rules, rd, now);
    case Query(rd) => ReconcileAttempts(c, cfg.rules, rd, now);
    case Retrigger(rd) => RetriggerKeeps(cfg, c, rd, now);
    case _ =>
  }

  /** The entry's due time and count after `n` more visits, at the earliest. */
  predicate Spaced(cfg: RetryConfig, q: QueueRow, q': QueueRow, n: nat) {
    && q'.attemptCount == q.attemptCount + n
    && q'.nextRetryAt >= q.nextRetryAt + 1000 * TotalDelay(cfg, q.attemptCount, n)
  }

  lemma SpacedStep(cfg: Config, s: State, step: Step, ref: Ref)
    requires AllSound(cfg, s) && CanStep(cfg, s, step)
    requires !(step.On? && step.ref == ref && step.action.EnqueueRetry?)
    requires At(s, ref).Queued() && At(Next(cfg, s, step), ref).Queued()
    ensures Spaced(cfg.retry, At(s, ref).entry.value, At(Next(cfg, s, step), ref).entry.value, IsVisit(step, ref))
    ensures var q, q' := At(s, ref).entry.value, At(Next(cfg, s, step), ref).entry.value;
      0 < IsVisit(step, ref) ==> q'.nextRetryAt == s.now + 1000 * Delay(cfg.retry, q.attemptCount + 1)
  {
    assert SoundAt(cfg, s, ref);
    if step.On? && step.ref == ref {
      if step.action.RetryVisit? {
        VisitReschedules(cfg, At(s, ref), step.action, s.now);
        var k := At(s, ref).entry.value.attemptCount;
        assert TotalDelay(cfg.retry, k, 1) == TotalDelay(cfg.retry, k, 0) + Delay(cfg.retry, k + 1);
      } else {
        OthersKeepSchedule(cfg, At(s, ref), step.action, s.now);
      }
    }
  }

  lemma SpacedTrans(cfg: RetryConfig, q: QueueRow, q': QueueRow, q'': QueueRow, m: nat, n: nat)
    requires m <= 1 && Spaced(cfg, q, q', m) && Spaced(cfg, q', q'', n)
    ensures Spaced(cfg, q, q'', m + n)
  {
    if m == 1 {
      assert TotalDelay(cfg, q.attemptCount, 1) == TotalDelay(cfg, q.attemptCount, 0) + Delay(cfg, q.attemptCount + 1);
      TotalDelayFirst(cfg, q.attemptCount, n + 1);
    }
  }

  /** Over a run that keeps the entry open, its due time moves by at least the sum of the delays
      of the visits it gets. */
  lemma {:induction false} RetrySpacing(cfg: Config, s: State, steps: seq<Step>, ref: Ref)
    requires AllSound(cfg, s) && IsRun(cfg, s, steps) && NoEnqueue(steps, ref)
    requires QueuedThroughout(cfg, s, steps, ref)
    ensures At(End(cfg, s, steps), ref).Queued()
    ensures Spaced(cfg.retry, At(s, ref).entry.value, At(End(cfg, s, steps), ref).entry.value, Visits(steps, ref))
    decreases |steps|
  {
    if steps == [] { return; }
    var s' := Next(cfg, s, steps[0]);
    assert IsRun(cfg, s', steps[1..]) && NoEnqueue(steps[1..], ref) && QueuedThroughout(cfg, s', steps[1..], ref);
    assert QueuedThroughout(cfg, s', steps[1..], ref) ==> At(s', ref).Queued();
    assert Visits(steps, ref) == IsVisit(steps[0], ref) + Visits(steps[1..], ref);
    hide After, Enabled, Sound, Spaced, NoEnqueue, Visits, IsVisit, AllSound, CanStep, Next;
    StepKeepsSound(cfg, s, steps[0]);
    RetrySpacing(cfg, s', steps[1..], ref);
    SpacedCons(cfg, s, steps[0], ref, At(End(cfg, s, steps), ref).entry.value, Visits(steps[1..], ref));
  }

  lemma SpacedCons(cfg: Config, s: State, step: Step, ref: Ref, later: QueueRow, n: nat)
    requires AllSound(cfg, s) && CanStep(cfg, s, step)
    requires !(step.On? && step.ref == ref && step.action.EnqueueRetry?)
    requires At(s, ref).Queued() && At(Next(cfg, s, step), ref).Queued()
    requires Spaced(cfg.retry, At(Next(cfg, s, step), ref).entry.value, later, n)
    ensures Spaced(cfg.retry, At(s, ref).entry.value, later, IsVisit(step, ref) + n)
  {
    hide After, Enabled, AllSound, TotalDelay, Delay, Spaced;
    SpacedStep(cfg, s, step, ref);
    SpacedTrans(cfg.retry, At(s, ref).entry.value, At(Next(cfg, s, step), ref).entry.value, later, IsVisit(step, ref), n);
  }

  /** Attempt n of an entry enqueued afresh comes no earlier than its first attempt plus the first
      n - 1 delays: here the first step is the first attempt, and a due visit follows the rest. */
  lemma AttemptNotBefore(cfg: Config, s: State, steps: seq<Step>, ref: Ref)
    requires AllSound(cfg, s) && IsRun(cfg, s, steps) && NoEnqueue(steps, ref)
    requires QueuedThroughout(cfg, s, steps, ref)
    requires steps != [] && steps[0].On? && steps[0].ref == ref && steps[0].action.RetryVisit?
    requires At(s, ref).entry.value.attemptCount == 0
    ensures var e := End(cfg, s, steps);
      Due(At(e, ref), e.now) ==> e.now >= s.now + 1000 * TotalDelay(cfg.retry, 0, Visits(steps, ref))
  {
    var s' := Next(cfg, s, steps[0]);
    assert IsRun(cfg, s', steps[1..]) && NoEnqueue(steps[1..], ref) && QueuedThroughout(cfg, s', steps[1..], ref);
    assert At(s', ref).Queued() && At(s, ref).Queued();
    assert Visits(steps, ref) == 1 + Visits(steps[1..], ref) && IsVisit(steps[0], ref) == 1;
    hide Enabled, After, Sound, TotalDelay, Delay;
    SpacedStep(cfg, s, steps[0], ref);
    StepKeepsSound(cfg, s, steps[0]);
    RetrySpacing(cfg, s', steps[1..], ref);
    FirstDelayAndRest(cfg.retry, s.now, At(s', ref).entry.value, At(End(cfg, s', steps[1..]), ref).entry.value,
                      Visits(steps[1..], ref));
  }

  lemma FirstDelayAndRest(cfg: RetryConfig, first: int, q: QueueRow, q': QueueRow, n: nat)
    requires q.attemptCount == 1 && q.nextRetryAt == first + 1000 * Delay(cfg, 1) && Spaced(cfg, q, q', n)
    ensures q'.nextRetryAt >= first + 1000 * TotalDelay(cfg, 0, n + 1)
  {
    TotalDelayFirst(cfg, 0, n + 1);
  }

  // ---------------------------------------------------------------- a closed entry stays closed

  predicate Closed(c: Case) { c.entry.Some? && c.entry.value.status == DONE }

  lemma ClosedKept(cfg: Config, c: Case, a: Action, now: int)
    requires Closed(c) && Enabled(cfg, c, a, now)
    ensures Closed(After(cfg, c, a, now))
  {
    match a
    case WorkerVisit(rd) => ReconcileAttempts(c, cfg.rules, rd, now);
    case Query(rd) => ReconcileAttempts(c, cfg.rules, rd, now);
    case Retrigger(rd) => ReconcileAttempts(ResetCase(c), cfg.rules, rd, now);
    case _ =>
  }

  /** Once RESOLVED, a queue entry is never opened again: later enqueue requests for the transaction
      are accepted, and no retry ever follows. */
  lemma {:induction false} ClosedForGood(cfg: Config, s: State, steps: seq<Step>, ref: Ref)
    requires IsRun(cfg, s, steps) && Closed(At(s, ref))
    ensures Closed(At(End(cfg, s, steps), ref))
    ensures Visits(steps, ref) == 0
    decreases |steps|
  {
    if steps != [] {
      if steps[0].On? && steps[0].ref == ref { ClosedKept(cfg, At(s, ref), steps[0].action, s.now); }
      ClosedForGood(cfg, Next(cfg, s, steps[0]), steps[1..], ref);
    }
  }

  // ---------------------------------------------------------------- spacing of the worker's polls

  /** An attempt stamps the state row with the clock and the number of records. */
  lemma ReconcileStamps(c: Case, rules: RuleSet, rd: Reading, now: int)
    requires IsReading(rd, c.records) && c.records != [] && !ReconcileOne(c, rules, rd, now).failed
    ensures var row := ReconcileOne(c, rules, rd, now).c.row;
      row.Some? && row.value.recordCount == |c.records| && row.value.lastProcessedAt == Some(now)
  {
    ReadingDecided(rd, c.records, rules, now);
    assert |multiset(rd.rows)| == |rd.rows| && |multiset(c.records)| == |c.records|;
  }

  /** The transaction has been attempted at `t` or later. */
  predicate Polled(c: Case, t: int) {
    c.row.Some? && c.row.value.lastProcessedAt.Some? && t <= c.row.value.lastProcessedAt.value
  }

  predicate Resets(step: Step, ref: Ref) {
    step.On? && step.ref == ref && (step.action.Retrigger? || step.action.RetryVisit?)
  }

  lemma PolledKept(cfg: Config, c: Case, a: Action, now: int, t: int)
    requires Polled(c, t) && t <= now && Enabled(cfg, c, a, now) && !a.Retrigger? && !a.RetryVisit?
    ensures Polled(After(cfg, c, a, now), t)
  {}

  /** Without a retrigger in between, the worker does not take a transaction up again before the
      flat backoff after its last attempt has passed. */
  lemma {:induction false} WorkerSpacing(cfg: Config, s: State, steps: seq<Step>, ref: Ref, t: int)
    requires IsRun(cfg, s, steps) && Polled(At(s, ref), t) && t <= s.now
    requires forall step :: step in steps ==> !Resets(step, ref)
    ensures var e := End(cfg, s, steps);
      NeedsWork(At(e, ref), BackoffCutoff(cfg, e.now)) ==> t + 1000 * cfg.retryBackoffSecs < e.now
    decreases |steps|
  {
    if steps != [] {
      assert steps[0] in steps;
      if steps[0].On? && steps[0].ref == ref { PolledKept(cfg, At(s, ref), steps[0].action, s.now, t); }
      WorkerSpacing(cfg, Next(cfg, s, steps[0]), steps[1..], ref, t);
    }
  }

  // ---------------------------------------------------------------- the engine worker runs dry

  /** Attempts the engine worker can still spend on a case. */
  function Work(cfg: Config, c: Case): nat {
    if c.records == [] then 0
    else if c.row.None? then Max(1, cfg.rules.maxRetries)
    else if c.row.value.status == PENDING then Max(0, c.row.value.maxRetries - c.row.value.retryCount)
    else 0
  }

  function TotalWork(cfg: Config, s: State, refs: seq<Ref>): nat {
    if refs == [] then 0 else Work(cfg, At(s, refs[0])) + TotalWork(cfg, s, refs[1..])
  }

  /** Steps that give the engine worker no new work: no retrigger, no matcher error, and no first
      record of a transaction. */
  ghost predicate NoNewWork(cfg: Config, s: State, step: Step)
    requires CanStep(cfg, s, step)
  {
    step.On? ==>
      var c := At(s, step.ref);
      match step.action
      case Retrigger(_) => false
      case RetryVisit(_, _, _) => false
      case Ingest(_) => c.records != []
      case WorkerVisit(rd) => !ReconcileOne(c, cfg.rules, rd, s.now).failed
      case _ => true
  }

  /** PENDING, with all attempts of the worker used up and nothing in the retry queue. */
  predicate Stuck(c: Case) {
    c.HasStatus(PENDING) && c.row.value.maxRetries <= c.row.value.retryCount && c.entry.None?
  }

  /** The worker takes a PENDING transaction up again at some time iff attempts are left. */
  lemma DueAgainIff(cfg: Config, c: Case, now: int)
    requires c.HasStatus(PENDING) && c.records != []
    ensures c.row.value.retryCount < c.row.value.maxRetries <==>
      exists later :: now <= later && NeedsWork(c, BackoffCutoff(cfg, later))
  {
    if c.row.value.retryCount < c.row.value.maxRetries {
      var last := if c.row.value.lastProcessedAt.Some? then c.row.value.lastProcessedAt.value else now;
      var later := Max(now, last) + 1000 * cfg.retryBackoffSecs + 1;
      assert NeedsWork(c, BackoffCutoff(cfg, later));
    }
  }

  lemma StuckKept(cfg: Config, c: Case, a: Action, now: int)
    requires Stuck(c) && Enabled(cfg, c, a, now) && !a.Retrigger?
    ensures var d := After(cfg, c, a, now); Stuck(d) && d.row == c.row && d.log == c.log
  {}

  /** A stuck transaction stays PENDING in every run without an external retrigger, whatever records
      arrive and however much time passes: the pending timeout never gets to apply. */
  lemma {:induction false} StuckForGood(cfg: Config, s: State, steps: seq<Step>, ref: Ref)
    requires IsRun(cfg, s, steps) && Stuck(At(s, ref)) && NoRetrigger(steps, ref)
    ensures Stuck(At(End(cfg, s, steps), ref)) && At(End(cfg, s, steps), ref).row == At(s, ref).row
    decreases |steps|
  {
    if steps != [] {
      if steps[0].On? && steps[0].ref == ref { StuckKept(cfg, At(s, ref), steps[0].action, s.now); }
      StuckForGood(cfg, Next(cfg, s, steps[0]), steps[1..], ref);
    }
  }

  /** A visit that fails on an amount spends nothing: the case is unchanged, and due at once and at
      every later time. */
  lemma FailedVisitRepeats(cfg: Config, c: Case, rd: Reading, now: int, later: int)
    requires NeedsWork(c, BackoffCutoff(cfg, now)) && IsReading(rd, c.records) && now <= later
    requires ReconcileOne(c, cfg.rules, rd, now).failed
    ensures ReconcileOne(c, cfg.rules, rd, now).c == c && NeedsWork(c, BackoffCutoff(cfg, later))
  {}

  lemma WorkShrinks(cfg: Config, s: State, step: Step)
    requires AllSound(cfg, s) && CanStep(cfg, s, step) && NoNewWork(cfg, s, step) && step.On?
    ensures Work(cfg, At(Next(cfg, s, step), step.ref)) <= Work(cfg, At(s, step.ref))
    ensures step.action.WorkerVisit? ==>
      Work(cfg, At(Next(cfg, s, step), step.ref)) < Work(cfg, At(s, step.ref))
  {
    var c := At(s, step.ref);
    assert SoundAt(cfg, s, step.ref);
    match step.action
    case WorkerVisit(rd) => ReconcileAttempts(c, cfg.rules, rd, s.now);
    case Query(rd) => ReconcileAttempts(c, cfg.rules, rd, s.now);
    case _ =>
  }

  lemma {:induction false} TotalWorkShrinks(cfg: Config, s: State, s': State, refs: seq<Ref>, ref: Ref)
    requires forall r :: r != ref ==> At(s', r) == At(s, r)
    requires Work(cfg, At(s', ref)) <= Work(cfg, At(s, ref))
    ensures TotalWork(cfg, s', refs) <= TotalWork(cfg, s, refs)
    ensures ref in refs && Work(cfg, At(s', ref)) < Work(cfg, At(s, ref)) ==>
      TotalWork(cfg, s', refs) < TotalWork(cfg, s, refs)
  {
    if refs != [] { TotalWorkShrinks(cfg, s, s', refs[1..], ref); }
  }

  ghost predicate AllNoNewWork(cfg: Config, s: State, steps: seq<Step>)
    requires IsRun(cfg, s, steps)
    decreases |steps|
  {
    steps == [] || (NoNewWork(cfg, s, steps[0]) && AllNoNewWork(cfg, Next(cfg, s, steps[0]), steps[1..]))
  }

  function WorkerVisits(steps: seq<Step>): nat {
    if steps == [] then 0 else
      (if steps[0].On? && steps[0].action.WorkerVisit? then 1 else 0) + WorkerVisits(steps[1..])
  }

  /** Engine worker termination: without new work, the number of worker attempts on `refs` in any
      run is at most the total work at its start. */
  lemma {:induction false} WorkerTerminates(cfg: Config, s: State, steps: seq<Step>, refs: seq<Ref>)
    requires AllSound(cfg, s) && IsRun(cfg, s, steps) && AllNoNewWork(cfg, s, steps)
    requires forall i :: 0 <= i < |steps| && steps[i].On? && steps[i].action.WorkerVisit? ==> steps[i].ref in refs
    ensures WorkerVisits(steps) + TotalWork(cfg, End(cfg, s, steps), refs) <= TotalWork(cfg, s, refs)
    decreases |steps|
  {
    if steps != [] {
      var s' := Next(cfg, s, steps[0]);
      StepKeepsSound(cfg, s, steps[0]);
      if steps[0].On? {
        WorkShrinks(cfg, s, steps[0]);
        TotalWorkShrinks(cfg, s, s', refs, steps[0].ref);
      } else {
        TotalWorkShrinks(cfg, s, s', refs, 0);
      }
      forall i | 0 <= i < |steps[1..]| && steps[1..][i].On? && steps[1..][i].action.WorkerVisit?
        ensures steps[1..][i].ref in refs
      {
        assert steps[1..][i] == steps[i + 1];
      }
      WorkerTerminates(cfg, s', steps[1..], refs);
    }
  }
}
