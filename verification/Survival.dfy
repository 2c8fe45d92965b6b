/** When interleaved statements keep a promise after all, exactly: a decided transaction is not
    undecided, and the audit log replays to the status. */
module Survival {
  import opened Wrappers
  import opened Rules
  import opened Matcher
  import opened MatcherLaws
  import opened Cases
  import opened Transitions
  import opened Invariants
  import opened Statements
  import opened Interleaving
  import opened Refinement
  import Races

  // ---------------------------------------------------------------- order of the lines

  predicate PendingAttempt(e: AuditEntry) { e.event == MATCH_ATTEMPT && e.newStatus == PENDING }

  predicate AttemptLine(stmt: Stmt) { stmt.Match? || (stmt.Append? && stmt.e.event == MATCH_ATTEMPT) }

  predicate NoAttempts(todo: Todo) { forall line :: line in todo ==> !AttemptLine(line.stmt) }

  /** Only writes come before a match or before the audit line of an attempt. */
  predicate Orderly(todo: Todo) {
    todo == [] || if IsWrite(todo[0].stmt) then Orderly(todo[1..]) else NoAttempts(todo[1..])
  }

  ghost predicate AllOrderly(w: World) { forall k :: 0 <= k < |w.clients| ==> Orderly(w.clients[k].todo) }

  lemma {:induction false} NoAttemptsOrderly(todo: Todo)
    requires NoAttempts(todo)
    ensures Orderly(todo)
  {
    if todo != [] && IsWrite(todo[0].stmt) { NoAttemptsOrderly(todo[1..]); }
  }

  lemma {:induction false} WritesThenOrderly(a: Todo, b: Todo)
    requires OnlyWrites(a) && Orderly(b)
    ensures Orderly(a + b)
  {
    if a == [] {
      assert a + b == b;
    } else {
      assert a[0] in a && (a + b)[1..] == a[1..] + b;
      WritesThenOrderly(a[1..], b);
    }
  }

  lemma {:induction false} PrefixOrderly(todo: Todo, prefix: Todo)
    requires Orderly(todo) && prefix <= todo
    ensures Orderly(prefix)
  {
    if prefix != [] {
      if IsWrite(todo[0].stmt) {
        PrefixOrderly(todo[1..], prefix[1..]);
      } else {
        forall line | line in prefix[1..] ensures line in todo[1..] {
          var i :| 0 <= i < |prefix[1..]| && prefix[1..][i] == line;
          assert todo[1..][i] == line;
        }
      }
    }
  }

  lemma MatchShape(cfg: Config, c: Case, prior: OldStatus, read: Reading, rd: Reading, now: int)
    ensures var added := Adds(cfg, c, Match(prior, read), rd, now); added.Some? ==> OnlyWrites(added.value)
  {
    hide Decide, FirstSeen, WriteLines, OnlyWrites;
    assert OnlyWrites([]) by { NothingIsWrites(); }
    if read.rows != [] {
      var decision := Decide(read.unique, cfg.rules, FirstSeen(read.rows), now);
      if decision.Ok? { MatchWrites(cfg.rules, prior, read, decision.outcome, FirstSeen(read.rows), now); }
    }
  }

  lemma NothingIsWrites()
    ensures OnlyWrites([])
  {}

  lemma OtherShape(cfg: Config, c: Case, stmt: Stmt, rd: Reading, now: int)
    requires !stmt.Match? && !stmt.React? && !stmt.ReadRecords?
    ensures var added := Adds(cfg, c, stmt, rd, now); added.Some? ==> NoAttempts(added.value)
  {
    hide Decide, NeedsWork, OnlyWrites;
  }

  /** What a statement adds is writes, or a match in front, or nothing about attempts. */
  lemma AddsShape(cfg: Config, c: Case, stmt: Stmt, rd: Reading, now: int)
    ensures var added := Adds(cfg, c, stmt, rd, now);
      added.Some? ==> OnlyWrites(added.value) || NoAttempts(added.value) || (|added.value| == 1 && stmt.ReadRecords?)
  {
    hide Decide, NeedsWork, OnlyWrites, NoAttempts, ReactionLines, WriteLines, RetriggerLines;
    match stmt
    case Match(prior, read) => MatchShape(cfg, c, prior, read, rd, now);
    case React(q, reply, picked) => ReactionWrites(cfg, q, reply, picked, now);
    case ReadRecords(_) => NothingIsWrites();
    case _ => OtherShape(cfg, c, stmt, rd, now);
  }

  lemma ExecOrderly(cfg: Config, c: Case, todo: Todo, rd: Reading, now: int)
    requires todo != [] && Orderly(todo)
    ensures Orderly(AfterExec(cfg, c, todo, rd, now))
  {
    hide Adds, AfterFailure;
    var added := Adds(cfg, c, todo[0].stmt, rd, now);
    AddsShape(cfg, c, todo[0].stmt, rd, now);
    if added.None? {
      NoAttemptsOrderly(AfterFailure(todo[1..]));
    } else if IsWrite(todo[0].stmt) {
      WriteAddsNothing(cfg, c, todo[0].stmt, rd, now);
      assert [] + todo[1..] == todo[1..];
    } else {
      NoAttemptsOrderly(todo[1..]);
      if OnlyWrites(added.value) {
        WritesThenOrderly(added.value, todo[1..]);
      } else if NoAttempts(added.value) {
        NoAttemptsOrderly(added.value + todo[1..]);
      } else {
        assert (added.value + todo[1..])[1..] == todo[1..];
      }
    }
  }

  lemma WriteAddsNothing(cfg: Config, c: Case, stmt: Stmt, rd: Reading, now: int)
    requires IsWrite(stmt)
    ensures Adds(cfg, c, stmt, rd, now) == Some([])
  {}

  lemma FailOrderly(todo: Todo)
    requires todo != [] && Orderly(todo)
    ensures Orderly(AfterFail(todo))
  {
    NoAttemptsOrderly(AfterFailure(todo));
    if !IsWrite(todo[0].stmt) { NoAttemptsOrderly(todo[1..]); }
  }

  lemma StepOrderly(cfg: Config, w: World, step: Step)
    requires AllOrderly(w) && CanStep(w, step)
    ensures AllOrderly(Next(cfg, w, step))
  {
    hide Adds, Effect, AfterExec, AfterFail, AfterFailure, Orphaned, Orderly;
    match step
    case Tick(_) =>
    case Spawn(_, op) => ProgramOrderly(op);
    case Exec(k, rd) => ExecOrderly(cfg, w.At(w.clients[k].ref), w.clients[k].todo, rd, w.now);
    case Fail(k, _) => FailOrderly(w.clients[k].todo);
    case Crash(_) => NoAttemptsOrderly([]);
    case Detach(k) =>
      PrefixOrderly(w.clients[k].todo, Orphaned(w.clients[k].todo));
      NoAttemptsOrderly(AfterFailure(w.clients[k].todo));
  }

  lemma ProgramOrderly(op: Operation)
    ensures Orderly(Program(op))
  {
    NoAttemptsOrderly(Program(op));
  }

  lemma {:induction false} RunOrderly(cfg: Config, w: World, steps: seq<Step>)
    requires AllOrderly(w) && IsRun(cfg, w, steps)
    ensures AllOrderly(End(cfg, w, steps))
    decreases |steps|
  {
    if steps != [] {
      StepOrderly(cfg, w, steps[0]);
      RunOrderly(cfg, Next(cfg, w, steps[0]), steps[1..]);
    }
  }

  // ---------------------------------------------------------------- decisions

  /** Going on now, this line would put a PENDING attempt into the log. */
  ghost predicate Undecides(cfg: Config, stmt: Stmt, now: int) {
    match stmt
    case Match(_, rd) => rd.rows != [] && !Decided(rd.rows, cfg.rules, now)
    case Append(e) => PendingAttempt(e)
    case _ => false
  }

  ghost predicate HoldsPending(cfg: Config, todo: Todo, now: int) {
    exists line :: line in todo && Undecides(cfg, line.stmt, now)
  }

  /** No client on `ref` holds a match on an undecided reading, or a PENDING match not yet written. */
  ghost predicate Clean(cfg: Config, w: World, ref: Ref) {
    forall k :: 0 <= k < |w.clients| && w.clients[k].ref == ref ==> !HoldsPending(cfg, w.clients[k].todo, w.now)
  }

  /** What the log has gained since holds no PENDING attempt. */
  predicate NoNewPending(before: seq<AuditEntry>, after: seq<AuditEntry>) {
    forall i :: |before| <= i < |after| ==> !PendingAttempt(after[i])
  }

  lemma NoNewPendingTrans(a: seq<AuditEntry>, b: seq<AuditEntry>, c: seq<AuditEntry>)
    requires NoNewPending(a, b) && NoNewPending(b, c) && b <= c
    ensures NoNewPending(a, c)
  {}

  ghost predicate NoneUndecides(cfg: Config, todo: Todo, now: int) {
    forall line :: line in todo ==> !Undecides(cfg, line.stmt, now)
  }

  lemma MatchDecides(cfg: Config, c: Case, prior: OldStatus, read: Reading, rd: Reading, now: int)
    requires IsListing(read.unique, read.rows) && !Undecides(cfg, Match(prior, read), now)
    ensures var added := Adds(cfg, c, Match(prior, read), rd, now);
      added.Some? ==> NoneUndecides(cfg, added.value, now)
  {
    hide Decide, Decided, FirstSeen, IsListing;
    if read.rows != [] { PendingIff(read.unique, read.rows, cfg.rules, now); }
  }

  lemma ReadDecides(cfg: Config, c: Case, prior: OldStatus, rd: Reading, now: int)
    requires Decided(c.records, cfg.rules, now) && IsReading(rd, c.records)
    ensures NoneUndecides(cfg, Adds(cfg, c, ReadRecords(prior), rd, now).value, now)
  {
    ReadingDecided(rd, c.records, cfg.rules, now);
  }

  lemma ReactionDecides(cfg: Config, q: QueueRow, reply: EngineReply, picked: Option<Source>, now: int)
    ensures NoneUndecides(cfg, ReactionLines(cfg, q, reply, picked, now), now)
  {}

  lemma OthersDecide(cfg: Config, c: Case, stmt: Stmt, rd: Reading, now: int)
    requires !stmt.Match? && !stmt.ReadRecords?
    ensures var added := Adds(cfg, c, stmt, rd, now); added.Some? ==> NoneUndecides(cfg, added.value, now)
  {
    hide Decide, Decided, NeedsWork, ReactionLines;
    if stmt.React? { ReactionDecides(cfg, stmt.fetched, stmt.reply, stmt.picked, now); }
  }

  /** On records that are decided, nothing a statement adds undecides. */
  lemma AddsDecide(cfg: Config, c: Case, stmt: Stmt, rd: Reading, now: int)
    requires Decided(c.records, cfg.rules, now) && LineOk(cfg, c, stmt, now) && !Undecides(cfg, stmt, now)
    requires stmt.ReadRecords? ==> IsReading(rd, c.records)
    ensures var added := Adds(cfg, c, stmt, rd, now); added.Some? ==> NoneUndecides(cfg, added.value, now)
  {
    hide Adds, Decided, Undecides, IsReading, NoneUndecides;
    match stmt
    case ReadRecords(prior) => ReadDecides(cfg, c, prior, rd, now);
    case Match(prior, read) => MatchDecides(cfg, c, prior, read, rd, now);
    case _ => OthersDecide(cfg, c, stmt, rd, now);
  }

  lemma ExecDecides(cfg: Config, c: Case, todo: Todo, rd: Reading, now: int)
    requires Decided(c.records, cfg.rules, now) && todo != [] && LineOk(cfg, c, todo[0].stmt, now)
    requires NoneUndecides(cfg, todo, now) && (todo[0].stmt.ReadRecords? ==> IsReading(rd, c.records))
    ensures NoneUndecides(cfg, AfterExec(cfg, c, todo, rd, now), now)
  {
    assert todo[0] in todo;
    AddsDecide(cfg, c, todo[0].stmt, rd, now);
    hide Adds, AfterFailure, Undecides, LineOk, IsReading;
    FailureDecides(cfg, todo[1..], now);
  }

  lemma FailureDecides(cfg: Config, todo: Todo, now: int)
    ensures NoneUndecides(cfg, AfterFailure(todo), now)
  {}

  lemma EffectDecides(cfg: Config, c: Case, stmt: Stmt, now: int)
    requires !Undecides(cfg, stmt, now)
    ensures NoNewPending(c.log, Effect(cfg, c, stmt, now).log)
  {}

  lemma DecidedStays(cfg: Config, c: Case, d: Case, now: int, later: int)
    requires Decided(c.records, cfg.rules, now) && c.records <= d.records && now <= later
    ensures Decided(d.records, cfg.rules, later)
  {
    assert forall r :: r in c.records ==> r in d.records;
    DecidedMonotone(c.records, d.records, cfg.rules, now, later);
  }

  lemma ReplaceClean(cfg: Config, w: World, ref: Ref, k: nat, c: Case, todo: Todo)
    requires Clean(cfg, w, ref) && k < |w.clients|
    requires w.clients[k].ref == ref ==> NoneUndecides(cfg, todo, w.now)
    ensures Clean(cfg, w.Replace(k, c, todo), ref)
  {}

  lemma CleanClient(cfg: Config, w: World, ref: Ref, k: nat)
    requires Clean(cfg, w, ref) && k < |w.clients| && w.clients[k].ref == ref
    ensures NoneUndecides(cfg, w.clients[k].todo, w.now)
  {}

  lemma TickClean(cfg: Config, w: World, ref: Ref, later: int)
    requires Clean(cfg, w, ref) && w.now <= later
    ensures Clean(cfg, w.(now := later), ref)
  {
    forall k, line | 0 <= k < |w.clients| && w.clients[k].ref == ref && line in w.clients[k].todo
      ensures !Undecides(cfg, line.stmt, later)
    {
      CleanClient(cfg, w, ref, k);
      if line.stmt.Match? && Decided(line.stmt.rd.rows, cfg.rules, w.now) {
        DecidedMonotone(line.stmt.rd.rows, line.stmt.rd.rows, cfg.rules, w.now, later);
      }
    }
  }

  lemma ProgramDecides(cfg: Config, op: Operation, now: int)
    ensures NoneUndecides(cfg, Program(op), now)
  {}

  lemma OrphanDecides(cfg: Config, todo: Todo, now: int)
    requires NoneUndecides(cfg, todo, now)
    ensures NoneUndecides(cfg, Orphaned(todo), now)
  {
    forall line | line in Orphaned(todo) ensures line in todo {
      var i :| 0 <= i < |Orphaned(todo)| && Orphaned(todo)[i] == line;
      assert todo[i] == line;
    }
  }

  lemma CleanStep(cfg: Config, w: World, step: Step, ref: Ref)
    requires WorldOk(cfg, w) && Clean(cfg, w, ref) && Decided(w.At(ref).records, cfg.rules, w.now) && CanStep(w, step)
    ensures Clean(cfg, Next(cfg, w, step), ref)
    ensures NoNewPending(w.At(ref).log, Next(cfg, w, step).At(ref).log)
  {
    hide Adds, Effect, AfterExec, AfterFail, AfterFailure, Orphaned, Undecides, LineOk, IsReading, Clean, Decided;
    match step
    case Tick(later) => TickClean(cfg, w, ref, later);
    case Spawn(r, op) => SpawnClean(cfg, w, ref, r, op);
    case Exec(k, rd) => ExecClean(cfg, w, ref, k, rd);
    case Fail(k, applied) => FailClean(cfg, w, ref, k, applied);
    case Crash(k) => ReplaceClean(cfg, w, ref, k, w.At(w.clients[k].ref), []);
    case Detach(k) => DetachClean(cfg, w, ref, k);
  }

  lemma SpawnClean(cfg: Config, w: World, ref: Ref, r: Ref, op: Operation)
    requires Clean(cfg, w, ref)
    ensures Clean(cfg, w.(clients := w.clients + [Client(r, Program(op))]), ref)
  {
    ProgramDecides(cfg, op, w.now);
  }

  lemma DetachClean(cfg: Config, w: World, ref: Ref, k: nat)
    requires Clean(cfg, w, ref) && k < |w.clients|
    ensures var client := w.clients[k];
      Clean(cfg, w.(clients := w.clients[k := Client(client.ref, Orphaned(client.todo))]
                                 + [Client(client.ref, AfterFailure(client.todo))]), ref)
  {
    if w.clients[k].ref == ref {
      CleanClient(cfg, w, ref, k);
      OrphanDecides(cfg, w.clients[k].todo, w.now);
      FailureDecides(cfg, w.clients[k].todo, w.now);
    }
  }

  lemma ExecClean(cfg: Config, w: World, ref: Ref, k: nat, rd: Reading)
    requires WorldOk(cfg, w) && Clean(cfg, w, ref) && Decided(w.At(ref).records, cfg.rules, w.now)
    requires CanStep(w, Exec(k, rd))
    ensures Clean(cfg, Next(cfg, w, Exec(k, rd)), ref)
    ensures NoNewPending(w.At(ref).log, Next(cfg, w, Exec(k, rd)).At(ref).log)
  {
    hide Adds, Effect, AfterExec, Undecides, LineOk, IsReading, Clean, Decided;
    var c, todo := w.At(w.clients[k].ref), w.clients[k].todo;
    if w.clients[k].ref == ref {
      CleanClient(cfg, w, ref, k);
      assert ClientOk(cfg, w, w.clients[k]) && todo[0] in todo;
      ExecDecides(cfg, c, todo, rd, w.now);
      EffectDecides(cfg, c, todo[0].stmt, w.now);
    }
    ReplaceClean(cfg, w, ref, k, Effect(cfg, c, todo[0].stmt, w.now), AfterExec(cfg, c, todo, rd, w.now));
  }

  lemma FailClean(cfg: Config, w: World, ref: Ref, k: nat, applied: bool)
    requires Clean(cfg, w, ref) && CanStep(w, Fail(k, applied))
    ensures Clean(cfg, Next(cfg, w, Fail(k, applied)), ref)
    ensures NoNewPending(w.At(ref).log, Next(cfg, w, Fail(k, applied)).At(ref).log)
  {
    hide Effect, AfterFailure, Undecides, Clean;
    var c, todo := w.At(w.clients[k].ref), w.clients[k].todo;
    if w.clients[k].ref == ref {
      CleanClient(cfg, w, ref, k);
      assert todo[0] in todo;
      EffectDecides(cfg, c, todo[0].stmt, w.now);
      FailureDecides(cfg, todo, w.now);
    }
    ReplaceClean(cfg, w, ref, k, if applied then Effect(cfg, c, todo[0].stmt, w.now) else c, AfterFail(todo));
  }

  lemma {:induction false} CleanRun(cfg: Config, w: World, steps: seq<Step>, ref: Ref)
    requires WorldOk(cfg, w) && Clean(cfg, w, ref) && Decided(w.At(ref).records, cfg.rules, w.now)
    requires IsRun(cfg, w, steps)
    ensures NoNewPending(w.At(ref).log, End(cfg, w, steps).At(ref).log)
    decreases |steps|
  {
    if steps != [] {
      var w' := Next(cfg, w, steps[0]);
      StepOk(cfg, w, steps[0]);
      CleanStep(cfg, w, steps[0], ref);
      StepGrows(cfg, w, steps[0], ref);
      DecidedStays(cfg, w.At(ref), w'.At(ref), w.now, w'.now);
      CleanRun(cfg, w', steps[1..], ref);
      RunGrows(cfg, w', steps[1..], ref);
      NoNewPendingTrans(w.At(ref).log, w'.At(ref).log, End(cfg, w, steps).At(ref).log);
    }
  }

  lemma UndecidedAdds(cfg: Config, c: Case, prior: OldStatus, read: Reading, rd: Reading, now: int)
    requires IsListing(read.unique, read.rows) && Undecides(cfg, Match(prior, read), now)
    ensures var added := Adds(cfg, c, Match(prior, read), rd, now); added.Some? && HoldsPending(cfg, added.value, now)
  {
    hide Decide, Decided, FirstSeen, IsListing;
    PendingIff(read.unique, read.rows, cfg.rules, now);
    var o := Decide(read.unique, cfg.rules, FirstSeen(read.rows), now).outcome;
    var last := Must(Append(AuditEntry(MATCH_ATTEMPT, prior, o.Status())));
    assert last in WriteLines(o, |read.rows|, prior) && Undecides(cfg, last.stmt, now);
  }

  /** A program that holds a PENDING attempt does not start with any other reading step. */
  lemma HeadUndecides(cfg: Config, todo: Todo, now: int)
    requires Orderly(todo) && HoldsPending(cfg, todo, now)
    ensures todo != []
    ensures IsWrite(todo[0].stmt) && !Undecides(cfg, todo[0].stmt, now) ==>
              Orderly(todo[1..]) && HoldsPending(cfg, todo[1..], now)
    ensures !IsWrite(todo[0].stmt) ==> todo[0].stmt.Match? && Undecides(cfg, todo[0].stmt, now)
  {
    hide Decided;
    var line :| line in todo && Undecides(cfg, line.stmt, now);
    if line != todo[0] { assert line in todo[1..]; }
  }

  /** The next line of such a program, on its own: it writes the attempt, or leaves a smaller one. */
  lemma ExecHolds(cfg: Config, c: Case, todo: Todo, now: int)
    requires todo != [] && Orderly(todo) && HoldsPending(cfg, todo, now) && LineOk(cfg, c, todo[0].stmt, now)
    requires !(todo[0].stmt.Append? && PendingAttempt(todo[0].stmt.e))
    ensures HoldsPending(cfg, AfterExec(cfg, c, todo, NOTHING_READ, now), now) && !todo[0].stmt.ReadRecords?
  {
    HeadUndecides(cfg, todo, now);
    hide Adds, Orderly, Decided;
    if IsWrite(todo[0].stmt) {
      WriteAddsNothing(cfg, c, todo[0].stmt, NOTHING_READ, now);
      assert [] + todo[1..] == todo[1..];
    } else {
      var prior, read := todo[0].stmt.prior, todo[0].stmt.rd;
      UndecidedAdds(cfg, c, prior, read, NOTHING_READ, now);
      var added := Adds(cfg, c, todo[0].stmt, NOTHING_READ, now).value;
      var line :| line in added && Undecides(cfg, line.stmt, now);
      assert line in added + todo[1..];
    }
  }

  /** Left to itself, client k appends its PENDING attempt. */
  lemma {:induction false} PendingRun(cfg: Config, w: World, k: nat) returns (steps: seq<Step>)
    requires WorldOk(cfg, w) && k < |w.clients|
    requires Orderly(w.clients[k].todo) && HoldsPending(cfg, w.clients[k].todo, w.now)
    ensures IsRun(cfg, w, steps)
    ensures !NoNewPending(w.At(w.clients[k].ref).log, End(cfg, w, steps).At(w.clients[k].ref).log)
    decreases TotalWeight(w.clients[k].todo, 0)
  {
    hide Adds, Effect, AfterExec, Orderly, HoldsPending, LineOk, TotalWeight;
    var ref, c, todo := w.clients[k].ref, w.At(w.clients[k].ref), w.clients[k].todo;
    HeadUndecides(cfg, todo, w.now);
    assert ClientOk(cfg, w, w.clients[k]) && todo[0] in todo;
    var step := Exec(k, NOTHING_READ);
    if todo[0].stmt.Append? && PendingAttempt(todo[0].stmt.e) {
      AppendsPending(cfg, c, todo[0].stmt.e, w.now);
      steps := [step];
      Races.SingleStep(cfg, w, step);
    } else {
      ExecHolds(cfg, c, todo, w.now);
      var w' := Next(cfg, w, step);
      StepOk(cfg, w, step);
      StepGrows(cfg, w, step, ref);
      ExecOrderly(cfg, c, todo, NOTHING_READ, w.now);
      ExecWeighs(cfg, c, todo, NOTHING_READ, w.now);
      var more := PendingRun(cfg, w', k);
      steps := [step] + more;
      assert steps[1..] == more;
    }
  }

  lemma AppendsPending(cfg: Config, c: Case, e: AuditEntry, now: int)
    requires PendingAttempt(e)
    ensures !NoNewPending(c.log, Effect(cfg, c, Append(e), now).log)
  {
    assert (c.log + [e])[|c.log|] == e;
  }

  /** Decisions survive, exactly: once the records of `ref` leave no PENDING answer, no run appends a
      PENDING attempt if and only if no client on `ref` holds a match on an undecided reading, or
      the unwritten line of a PENDING match. */
  lemma DecisionsSurviveIff(cfg: Config, w: World, ref: Ref)
    requires WorldOk(cfg, w) && AllOrderly(w) && Decided(w.At(ref).records, cfg.rules, w.now)
    ensures Clean(cfg, w, ref) <==>
      forall steps: seq<Step> :: IsRun(cfg, w, steps) ==> NoNewPending(w.At(ref).log, End(cfg, w, steps).At(ref).log)
  {
    hide WorldOk, Decided, HoldsPending, NoNewPending, Orderly;
    if Clean(cfg, w, ref) {
      forall steps: seq<Step> | IsRun(cfg, w, steps)
        ensures NoNewPending(w.At(ref).log, End(cfg, w, steps).At(ref).log)
      {
        CleanRun(cfg, w, steps, ref);
      }
    } else {
      var k :| 0 <= k < |w.clients| && w.clients[k].ref == ref && HoldsPending(cfg, w.clients[k].todo, w.now);
      var steps := PendingRun(cfg, w, k);
    }
  }

  /** So for every state any interleaving can reach in which a decision is visible. */
  lemma VisibleDecisionSurvivesIff(cfg: Config, now: int, before: seq<Step>, ref: Ref)
    requires IsRun(cfg, Empty(now), before) && ShowsDecision(End(cfg, Empty(now), before).At(ref))
    ensures var w := End(cfg, Empty(now), before);
      Clean(cfg, w, ref) <==>
      forall steps: seq<Step> :: IsRun(cfg, w, steps) ==> NoNewPending(w.At(ref).log, End(cfg, w, steps).At(ref).log)
  {
    EmptyOk(cfg, now);
    hide ShowsDecision, Decided, Clean, NoNewPending, Orderly, WorldOk, CaseOk;
    RunOk(cfg, Empty(now), before);
    RunOrderly(cfg, Empty(now), before);
    AnyInterleavingIsSafe(cfg, now, before, ref);
    DecisionsSurviveIff(cfg, End(cfg, Empty(now), before), ref);
  }

  lemma EmptyOk(cfg: Config, now: int)
    ensures WorldOk(cfg, Empty(now)) && AllOrderly(Empty(now))
  {
    forall r ensures CaseOkAt(cfg, Empty(now), r) {}
  }
}
