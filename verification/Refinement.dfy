/** A client that is not interrupted does exactly what the one-step operation does; so every run
    of whole operations is also a run of single statements. */
module Refinement {
  import opened Wrappers
  import opened Rules
  import opened Matcher
  import opened MatcherLaws
  import opened Cases
  import opened Transitions
  import opened Invariants
  import opened Statements
  import Protocol

  // ---------------------------------------------------------------- running to the end

  /** Bounds the lines a statement can still lead to when readings list `n` sources. */
  function Weight(stmt: Stmt, n: nat): (w: nat)
    ensures 1 <= w
  {
    match stmt
    case Poll => n + 6
    case CheckAbsent => n + 6
    case ReadOld => n + 5
    case ReadRecords(_) => n + 4
    case Match(_, rd) => |rd.unique| + 3
    case FetchDue(_) => n + 16
    case FetchReply(_, _) => 8
    case React(_, _, _) => 7
    case CheckResolve(_) => 5
    case CheckEnqueue(_, _) => 3
    case _ => 1
  }

  predicate IsWrite(stmt: Stmt) {
    match stmt
    case Insert(_) => true
    case UpsertState(_, _) => true
    case UpsertDetail(_) => true
    case Append(_) => true
    case Reset => true
    case Increment(_) => true
    case Mark(_) => true
    case InsertRow(_) => true
    case SetResolved => true
    case Enqueue(_, _) => true
    case _ => false
  }

  predicate OnlyWrites(todo: Todo) { forall line :: line in todo ==> IsWrite(line.stmt) }

  function TotalWeight(todo: Todo, n: nat): (w: nat)
    ensures |todo| <= w
  {
    if todo == [] then 0 else Weight(todo[0].stmt, n) + TotalWeight(todo[1..], n)
  }

  lemma {:induction false} WeightJoin(a: Todo, b: Todo, n: nat)
    ensures TotalWeight(a + b, n) == TotalWeight(a, n) + TotalWeight(b, n)
  {
    if a == [] {
      assert a + b == b;
    } else {
      assert (a + b)[1..] == a[1..] + b;
      WeightJoin(a[1..], b, n);
    }
  }

  lemma {:induction false} WeightOfWrites(todo: Todo, n: nat)
    requires OnlyWrites(todo)
    ensures TotalWeight(todo, n) == |todo|
  {
    if todo != [] {
      assert todo[0] in todo;
      WeightOfWrites(todo[1..], n);
    }
  }

  lemma ReactionWrites(cfg: Config, q: QueueRow, reply: EngineReply, picked: Option<Source>, now: int)
    ensures OnlyWrites(ReactionLines(cfg, q, reply, picked, now)) && |ReactionLines(cfg, q, reply, picked, now)| <= 6
  {}

  lemma MatchWrites(rules: RuleSet, prior: OldStatus, rd: Reading, o: Outcome, firstSeen: int, now: int)
    requires Decide(rd.unique, rules, firstSeen, now) == Ok(o)
    ensures OnlyWrites(WriteLines(o, |rd.rows|, prior)) && |WriteLines(o, |rd.rows|, prior)| <= |rd.unique| + 2
  {
    DecisionReports(rd.unique, rules, firstSeen, now);
  }

  lemma {:induction false} WeightAfterFailure(todo: Todo, n: nat)
    ensures TotalWeight(AfterFailure(todo), n) <= TotalWeight(todo, n)
    ensures todo != [] ==> TotalWeight(AfterFailure(todo), n) < TotalWeight(todo, n)
  {
    if todo != [] {
      if todo[0].stmt.FetchReply? {
        assert TotalWeight(AfterFailure(todo), n) == 7;
      } else {
        WeightAfterFailure(todo[1..], n);
      }
    }
  }

  lemma MatchWeighs(cfg: Config, c: Case, prior: OldStatus, read: Reading, rd: Reading, now: int)
    ensures var added := Adds(cfg, c, Match(prior, read), rd, now);
      added.Some? ==> TotalWeight(added.value, |rd.unique|) <= |read.unique| + 2
  {
    if read.rows != [] {
      var decision := Decide(read.unique, cfg.rules, FirstSeen(read.rows), now);
      if decision.Ok? {
        MatchWrites(cfg.rules, prior, read, decision.outcome, FirstSeen(read.rows), now);
        WeightOfWrites(WriteLines(decision.outcome, |read.rows|, prior), |rd.unique|);
      }
    }
  }

  lemma NothingWeighs(n: nat)
    ensures TotalWeight([], n) == 0
  {}

  lemma OneWeighs(line: Line, n: nat)
    ensures TotalWeight([line], n) == Weight(line.stmt, n)
  {}

  lemma CallWeighs(q: QueueRow, picked: Option<Source>, n: nat)
    ensures TotalWeight(RetriggerLines() + [Must(FetchReply(q, picked))], n) == n + 15
  {
    var lines := RetriggerLines();
    WeightJoin(lines, [Must(FetchReply(q, picked))], n);
    assert lines == [lines[0], lines[1]] + [lines[2]];
    WeightOfWrites([lines[0], lines[1]], n);
    WeightJoin([lines[0], lines[1]], [lines[2]], n);
    OneWeighs(lines[2], n);
    OneWeighs(Must(FetchReply(q, picked)), n);
  }

  lemma ReadWeighs(cfg: Config, c: Case, stmt: Stmt, rd: Reading, now: int)
    requires stmt.Poll? || stmt.CheckAbsent? || stmt.ReadOld? || stmt.ReadRecords? || stmt.FetchReply?
    ensures var added := Adds(cfg, c, stmt, rd, now);
      added.Some? && TotalWeight(added.value, |rd.unique|) < Weight(stmt, |rd.unique|)
  {}

  lemma AddsWeigh(cfg: Config, c: Case, stmt: Stmt, rd: Reading, now: int)
    ensures var added := Adds(cfg, c, stmt, rd, now);
      added.Some? ==> TotalWeight(added.value, |rd.unique|) < Weight(stmt, |rd.unique|)
  {
    hide Decide, NeedsWork, TotalWeight, RetriggerLines, WriteLines;
    var n := |rd.unique|;
    if stmt.Poll? || stmt.CheckAbsent? || stmt.ReadOld? || stmt.ReadRecords? || stmt.FetchReply? {
      ReadWeighs(cfg, c, stmt, rd, now);
      return;
    }
    NothingWeighs(n);
    match stmt
    case FetchDue(picked) => if Due(c, now) { CallWeighs(c.entry.value, picked, n); }
    case Match(prior, read) => MatchWeighs(cfg, c, prior, read, rd, now);
    case React(q, reply, picked) =>
      ReactionWrites(cfg, q, reply, picked, now);
      WeightOfWrites(ReactionLines(cfg, q, reply, picked, now), n);
    case CheckResolve(r) => WeightOfWrites(ResolveLines(r, StatusBefore(c)), n);
    case CheckEnqueue(m, who) => WeightOfWrites(EnqueueLines(m, who, MISMATCHED), n);
    case _ =>
  }

  lemma ExecWeighs(cfg: Config, c: Case, todo: Todo, rd: Reading, now: int)
    requires todo != []
    ensures TotalWeight(AfterExec(cfg, c, todo, rd, now), |rd.unique|) < TotalWeight(todo, |rd.unique|)
  {
    var added := Adds(cfg, c, todo[0].stmt, rd, now);
    AddsWeigh(cfg, c, todo[0].stmt, rd, now);
    if added.Some? {
      WeightJoin(added.value, todo[1..], |rd.unique|);
    } else {
      WeightAfterFailure(todo[1..], |rd.unique|);
    }
  }

  lemma FailWeighs(todo: Todo, n: nat)
    requires todo != []
    ensures TotalWeight(AfterFail(todo), n) < TotalWeight(todo, n)
  {
    WeightAfterFailure(todo, n);
  }

  /** The engine call of the retry worker goes wrong at this line. */
  predicate Drops(stmt: Stmt, rpc: Rpc) {
    (rpc == Unreached && stmt.Reset?) || (rpc == ReplyLost && stmt.FetchReply?)
  }

  /** The case after the client has run all its lines undisturbed, at one instant, reading `rd`. */
  function RunAlone(cfg: Config, c: Case, todo: Todo, rpc: Rpc, rd: Reading, now: int): Case
    decreases TotalWeight(todo, |rd.unique|)
  {
    if todo == [] then c
    else if Drops(todo[0].stmt, rpc) then
      FailWeighs(todo, |rd.unique|);
      RunAlone(cfg, c, AfterFail(todo), rpc, rd, now)
    else
      ExecWeighs(cfg, c, todo, rd, now);
      RunAlone(cfg, Effect(cfg, c, todo[0].stmt, now), AfterExec(cfg, c, todo, rd, now), rpc, rd, now)
  }

  // ---------------------------------------------------------------- programs against operations

  /** One line that adds nothing. */
  lemma RunWrite(cfg: Config, c: Case, line: Line, rest: Todo, rpc: Rpc, rd: Reading, now: int)
    requires IsWrite(line.stmt) && !Drops(line.stmt, rpc)
    ensures RunAlone(cfg, c, [line] + rest, rpc, rd, now)
      == RunAlone(cfg, Effect(cfg, c, line.stmt, now), rest, rpc, rd, now)
  {
    assert ([line] + rest)[1..] == rest && [] + rest == rest;
  }

  /** One line that only adds lines. */
  lemma RunRead(cfg: Config, c: Case, line: Line, added: Todo, rest: Todo, rpc: Rpc, rd: Reading, now: int)
    requires Adds(cfg, c, line.stmt, rd, now) == Some(added) && !Drops(line.stmt, rpc)
    requires Effect(cfg, c, line.stmt, now) == c
    ensures RunAlone(cfg, c, [line] + rest, rpc, rd, now) == RunAlone(cfg, c, added + rest, rpc, rd, now)
  {}

  lemma {:induction false} RunDetails(cfg: Config, c: Case, results: seq<SourceResult>, rest: Todo,
                                      rpc: Rpc, rd: Reading, now: int)
    ensures RunAlone(cfg, c, DetailLines(results) + rest, rpc, rd, now)
      == RunAlone(cfg, WriteDetails(c, results), rest, rpc, rd, now)
    decreases |results|
  {
    if results == [] {
      assert DetailLines(results) + rest == rest;
    } else {
      var n := |results| - 1;
      var last := Must(UpsertDetail(results[n]));
      assert DetailLines(results) + rest == DetailLines(results[..n]) + ([last] + rest);
      RunDetails(cfg, c, results[..n], [last] + rest, rpc, rd, now);
      RunWrite(cfg, WriteDetails(c, results[..n]), last, rest, rpc, rd, now);
    }
  }

  lemma RunWrites(cfg: Config, c: Case, o: Outcome, recordCount: nat, rest: Todo, rpc: Rpc, rd: Reading, now: int)
    ensures RunAlone(cfg, c, WriteLines(o, recordCount, StatusBefore(c)) + rest, rpc, rd, now)
      == RunAlone(cfg, Persist(c, o, recordCount, cfg.rules.maxRetries, now), rest, rpc, rd, now)
  {
    hide RunAlone, Decide;
    var state := Must(UpsertState(o, recordCount));
    var audit := Must(Append(AuditEntry(MATCH_ATTEMPT, StatusBefore(c), o.Status())));
    var stated := Effect(cfg, c, state.stmt, now);
    assert WriteLines(o, recordCount, StatusBefore(c)) + rest == [state] + (DetailLines(o.Results()) + ([audit] + rest));
    RunWrite(cfg, c, state, DetailLines(o.Results()) + ([audit] + rest), rpc, rd, now);
    RunDetails(cfg, stated, o.Results(), [audit] + rest, rpc, rd, now);
    RunWrite(cfg, WriteDetails(stated, o.Results()), audit, rest, rpc, rd, now);
  }

  /** `reconcile_one`; when it fails, the caller's remaining lines see the failure. */
  lemma RunReconcile(cfg: Config, c: Case, rest: Todo, rpc: Rpc, rd: Reading, now: int)
    ensures var r := ReconcileOne(c, cfg.rules, rd, now);
      RunAlone(cfg, c, [Must(ReadOld)] + rest, rpc, rd, now)
      == RunAlone(cfg, r.c, if r.failed then AfterFailure(rest) else rest, rpc, rd, now)
  {
    hide RunAlone, Decide;
    var prior := StatusBefore(c);
    var read := Must(ReadRecords(prior));
    RunRead(cfg, c, Must(ReadOld), [read], rest, rpc, rd, now);
    RunRead(cfg, c, read, if rd.rows == [] then [] else [Must(Match(prior, rd))], rest, rpc, rd, now);
    assert [] + rest == rest;
    if rd.rows != [] { RunMatch(cfg, c, rest, rpc, rd, now); }
  }

  lemma RunMatch(cfg: Config, c: Case, rest: Todo, rpc: Rpc, rd: Reading, now: int)
    requires rd.rows != []
    ensures var r := ReconcileOne(c, cfg.rules, rd, now);
      RunAlone(cfg, c, [Must(Match(StatusBefore(c), rd))] + rest, rpc, rd, now)
      == RunAlone(cfg, r.c, if r.failed then AfterFailure(rest) else rest, rpc, rd, now)
  {
    hide Decide, WriteLines, Persist, TotalWeight;
    var compare := Must(Match(StatusBefore(c), rd));
    assert ([compare] + rest)[1..] == rest;
    match Decide(rd.unique, cfg.rules, FirstSeen(rd.rows), now)
    case InvalidAmount(_) =>
    case Ok(o) =>
      RunRead(cfg, c, compare, WriteLines(o, |rd.rows|, StatusBefore(c)), rest, rpc, rd, now);
      RunWrites(cfg, c, o, |rd.rows|, rest, rpc, rd, now);
  }

  lemma RunRetrigger(cfg: Config, c: Case, rest: Todo, rpc: Rpc, rd: Reading, now: int)
    requires rpc != Unreached
    ensures var r := ReconcileOne(ResetCase(c), cfg.rules, rd, now);
      RunAlone(cfg, c, RetriggerLines() + rest, rpc, rd, now)
      == RunAlone(cfg, r.c, if r.failed then AfterFailure(rest) else rest, rpc, rd, now)
  {
    hide RunAlone, Decide;
    var audit := Try(Append(AuditEntry(RETRIGGER, Null, PENDING)));
    assert RetriggerLines() + rest == [Must(Reset)] + ([audit] + ([Must(ReadOld)] + rest));
    RunWrite(cfg, c, Must(Reset), [audit] + ([Must(ReadOld)] + rest), rpc, rd, now);
    RunWrite(cfg, c.ResetForRetrigger(), audit, [Must(ReadOld)] + rest, rpc, rd, now);
    RunReconcile(cfg, ResetCase(c), rest, rpc, rd, now);
  }

  lemma RunRetriggerOnly(cfg: Config, c: Case, rd: Reading, now: int)
    ensures RunAlone(cfg, c, RetriggerLines(), Delivered, rd, now) == ReTriggerMatch(c, cfg.rules, rd, now).c
  {
    assert RetriggerLines() + [] == RetriggerLines();
    RunRetrigger(cfg, c, [], Delivered, rd, now);
    assert AfterFailure([]) == [];
  }

  lemma RunTwo(cfg: Config, c: Case, first: Line, second: Line, rest: Todo, rpc: Rpc, rd: Reading, now: int)
    requires IsWrite(first.stmt) && IsWrite(second.stmt) && !Drops(first.stmt, rpc) && !Drops(second.stmt, rpc)
    ensures RunAlone(cfg, c, [first, second] + rest, rpc, rd, now)
      == RunAlone(cfg, Effect(cfg, Effect(cfg, c, first.stmt, now), second.stmt, now), rest, rpc, rd, now)
  {
    hide RunAlone, Decide;
    assert [first, second] + rest == [first] + ([second] + rest);
    RunWrite(cfg, c, first, [second] + rest, rpc, rd, now);
    RunWrite(cfg, Effect(cfg, c, first.stmt, now), second, rest, rpc, rd, now);
  }

  lemma RunNothing(cfg: Config, c: Case, rpc: Rpc, rd: Reading, now: int)
    ensures RunAlone(cfg, c, [], rpc, rd, now) == c
  {}

  lemma RunLast(cfg: Config, c: Case, line: Line, rpc: Rpc, rd: Reading, now: int)
    requires IsWrite(line.stmt) && !Drops(line.stmt, rpc)
    ensures RunAlone(cfg, c, [line], rpc, rd, now) == Effect(cfg, c, line.stmt, now)
  {}

  lemma RunLastTwo(cfg: Config, c: Case, first: Line, second: Line, rpc: Rpc, rd: Reading, now: int)
    requires IsWrite(first.stmt) && IsWrite(second.stmt) && !Drops(first.stmt, rpc) && !Drops(second.stmt, rpc)
    ensures RunAlone(cfg, c, [first, second], rpc, rd, now)
      == Effect(cfg, Effect(cfg, c, first.stmt, now), second.stmt, now)
  {
    hide RunAlone, Decide;
    RunNothing(cfg, Effect(cfg, Effect(cfg, c, first.stmt, now), second.stmt, now), rpc, rd, now);
    assert [first, second] + [] == [first, second];
    RunTwo(cfg, c, first, second, [], rpc, rd, now);
  }

  lemma RunAutoApply(cfg: Config, c: Case, chosen: Source, rpc: Rpc, rd: Reading, now: int)
    ensures RunAlone(cfg, c, AutoApplyLines(chosen), rpc, rd, now) == ApplyAutoResolution(c, chosen)
  {
    hide RunAlone, Decide;
    var insert := Must(InsertRow(ResolutionRow(AUTO, chosen, RETRY_WORKER)));
    var audit := Try(Append(AuditEntry(AUTO_RESOLUTION, Was(MISMATCHED), RESOLVED)));
    assert AutoApplyLines(chosen) == [insert, Must(SetResolved)] + [audit, Try(Mark(DONE))];
    RunTwo(cfg, c, insert, Must(SetResolved), [audit, Try(Mark(DONE))], rpc, rd, now);
    RunLastTwo(cfg, c.InsertResolution(insert.stmt.r).UpdateToResolved(), audit, Try(Mark(DONE)), rpc, rd, now);
  }

  lemma RunResolve(cfg: Config, c: Case, r: ResolutionRow, rpc: Rpc, rd: Reading, now: int)
    requires Resolvable(c)
    ensures RunAlone(cfg, c, ResolveLines(r, StatusBefore(c)), rpc, rd, now) == Resolve(c, r)
  {
    hide RunAlone, Decide;
    var lines := ResolveLines(r, StatusBefore(c));
    assert lines == [lines[0], lines[1]] + [lines[2], lines[3]];
    RunTwo(cfg, c, lines[0], lines[1], [lines[2], lines[3]], rpc, rd, now);
    RunLastTwo(cfg, c.InsertResolution(r).UpdateToResolved(), lines[2], lines[3], rpc, rd, now);
  }

  lemma RunExhausted(cfg: Config, c: Case, picked: Option<Source>, rpc: Rpc, rd: Reading, now: int)
    ensures RunAlone(cfg, c, ExhaustedLines(cfg, picked), rpc, rd, now) == HandleExhausted(c, cfg, picked)
  {
    hide RunAlone, Decide;
    RunNothing(cfg, HandleExhausted(c, cfg, None), rpc, rd, now);
    var first, second := Must(Mark(EXHAUSTED)), Try(Append(AuditEntry(RETRY_EXHAUSTED, Was(MISMATCHED), MISMATCHED)));
    if cfg.autoApplyOnExhaustion && cfg.defaultStrategyValid && picked.Some? {
      RunTwo(cfg, c, first, second, AutoApplyLines(picked.value), rpc, rd, now);
      RunAutoApply(cfg, c.MarkRetry(EXHAUSTED).AppendAudit(second.stmt.e), picked.value, rpc, rd, now);
    } else {
      RunTwo(cfg, c, first, second, [], rpc, rd, now);
    }
  }

  lemma RunReaction(cfg: Config, c: Case, q: QueueRow, reply: EngineReply, picked: Option<Source>,
                    rpc: Rpc, rd: Reading, now: int)
    ensures RunAlone(cfg, c, [Must(React(q, reply, picked))], rpc, rd, now) == AfterEngine(c, cfg, q, reply, picked, now)
  {
    hide RunAlone, Decide;
    var lines := ReactionLines(cfg, q, reply, picked, now);
    assert [Must(React(q, reply, picked))] + [] == [Must(React(q, reply, picked))] && lines + [] == lines;
    RunRead(cfg, c, Must(React(q, reply, picked)), lines, [], rpc, rd, now);
    if reply == Answer(MISMATCHED) {
      RunMismatched(cfg, c, q, picked, rpc, rd, now);
    } else if reply == Answer(PENDING) {
      RunLast(cfg, c, lines[0], rpc, rd, now);
    } else {
      RunLastTwo(cfg, c, lines[0], lines[1], rpc, rd, now);
    }
  }

  lemma RunMismatched(cfg: Config, c: Case, q: QueueRow, picked: Option<Source>, rpc: Rpc, rd: Reading, now: int)
    ensures RunAlone(cfg, c, ReactionLines(cfg, q, Answer(MISMATCHED), picked, now), rpc, rd, now)
      == AfterEngine(c, cfg, q, Answer(MISMATCHED), picked, now)
  {
    hide RunAlone, Decide;
    if q.attemptCount + 1 >= q.maxAttempts {
      RunExhausted(cfg, c, picked, rpc, rd, now);
    } else {
      var lines := ReactionLines(cfg, q, Answer(MISMATCHED), picked, now);
      RunLastTwo(cfg, c, lines[0], lines[1], rpc, rd, now);
    }
  }

  lemma CallFails(q: QueueRow, picked: Option<Source>)
    ensures AfterFailure(RetriggerLines() + [Must(FetchReply(q, picked))]) == [Must(React(q, Failed, picked))]
  {
    var lines := RetriggerLines() + [Must(FetchReply(q, picked))];
    assert lines[1..][1..][1..] == [Must(FetchReply(q, picked))];
    assert AfterFailure(lines) == AfterFailure(lines[1..]) == AfterFailure(lines[1..][1..])
      == AfterFailure(lines[1..][1..][1..]);
  }

  lemma RunUnreached(cfg: Config, c: Case, q: QueueRow, picked: Option<Source>, rd: Reading, now: int)
    ensures RunAlone(cfg, c, RetriggerLines() + [Must(FetchReply(q, picked))], Unreached, rd, now)
      == RunAlone(cfg, c, [Must(React(q, Failed, picked))], Unreached, rd, now)
  {
    hide Adds, Effect;
    var lines := RetriggerLines() + [Must(FetchReply(q, picked))];
    assert lines[0] == Must(Reset);
    CallFails(q, picked);
    assert AfterFail(lines) == [Must(React(q, Failed, picked))];
  }

  /** The engine call of the retry worker together with its reaction, however the call goes. */
  lemma RunEngineCall(cfg: Config, c: Case, q: QueueRow, picked: Option<Source>, rpc: Rpc, rd: Reading, now: int)
    ensures var called := EngineCall(c, cfg.rules, rpc, rd, now);
      RunAlone(cfg, c, RetriggerLines() + [Must(FetchReply(q, picked))], rpc, rd, now)
      == AfterEngine(called.c, cfg, q, called.reply, picked, now)
  {
    hide RunAlone, Decide;
    var await := Must(FetchReply(q, picked));
    if rpc == Unreached {
      RunUnreached(cfg, c, q, picked, rd, now);
      RunReaction(cfg, c, q, Failed, picked, rpc, rd, now);
    } else {
      RunRetrigger(cfg, c, [await], rpc, rd, now);
      var r := ReconcileOne(ResetCase(c), cfg.rules, rd, now);
      RunReply(cfg, r.c, q, picked, rpc, rd, now);
      RunReaction(cfg, r.c, q, Failed, picked, rpc, rd, now);
    }
  }

  lemma RunReply(cfg: Config, c: Case, q: QueueRow, picked: Option<Source>, rpc: Rpc, rd: Reading, now: int)
    ensures var reply := if rpc == ReplyLost || c.row.None? then Failed else Answer(c.row.value.status);
      RunAlone(cfg, c, [Must(FetchReply(q, picked))], rpc, rd, now) == AfterEngine(c, cfg, q, reply, picked, now)
  {
    var await := Must(FetchReply(q, picked));
    var reply := if rpc == ReplyLost || c.row.None? then Failed else Answer(c.row.value.status);
    RunReaction(cfg, c, q, reply, picked, rpc, rd, now);
    if rpc == ReplyLost {
      assert AfterFail([await]) == [Must(React(q, Failed, picked))];
    } else {
      assert [await] + [] == [await] && [Must(React(q, reply, picked))] + [] == [Must(React(q, reply, picked))];
      RunRead(cfg, c, await, [Must(React(q, reply, picked))], [], rpc, rd, now);
    }
  }

  // ---------------------------------------------------------------- operations

  /** The one-step operation that `op` is when nothing interrupts it. */
  function ActionOf(op: Operation, rpc: Rpc, rd: Reading): Action {
    match op
    case IngestRecord(view) => Ingest(view)
    case PollOne => WorkerVisit(rd)
    case QueryState => Query(rd)
    case RetriggerMatch => Retrigger(rd)
    case RetryDue(picked) => RetryVisit(rpc, rd, picked)
    case ResolveAs(r) =>
      if r.kind == MANUAL then ResolveManually(r.chosenSource, r.resolver) else AutoResolve(Some(r.chosenSource), r.resolver)
    case EnqueueFor(maxAttempts, requestedBy) => EnqueueRetry(maxAttempts, requestedBy)
  }

  ghost function Alone(cfg: Config, c: Case, op: Operation, rpc: Rpc, rd: Reading, now: int): Case {
    RunAlone(cfg, c, Program(op), if op.RetryDue? then rpc else Delivered, rd, now)
  }

  predicate ReadsNothing(op: Operation) { op.IngestRecord? || op.ResolveAs? || op.EnqueueFor? }

  ghost function Done(cfg: Config, c: Case, a: Action, now: int): Case {
    if Enabled(cfg, c, a, now) then After(cfg, c, a, now) else c
  }

  /** The uninterrupted program of an operation has its one-step effect; a worker that finds
      nothing to do changes nothing. */
  lemma AloneIsAtomic(cfg: Config, c: Case, op: Operation, rpc: Rpc, rd: Reading, now: int)
    requires IsReading(rd, c.records) || ReadsNothing(op)
    ensures Alone(cfg, c, op, rpc, rd, now) == Done(cfg, c, ActionOf(op, rpc, rd), now)
  {
    match op
    case IngestRecord(view) => AloneIngest(cfg, c, view, rpc, rd, now);
    case PollOne => AlonePoll(cfg, c, rpc, rd, now);
    case QueryState => AloneQuery(cfg, c, rpc, rd, now);
    case RetriggerMatch => AloneRetrigger(cfg, c, rpc, rd, now);
    case RetryDue(picked) => AloneRetry(cfg, c, picked, rpc, rd, now);
    case ResolveAs(r) => AloneResolve(cfg, c, r, rpc, rd, now);
    case EnqueueFor(m, who) => AloneEnqueue(cfg, c, m, who, rpc, rd, now);
  }

  lemma AloneIngest(cfg: Config, c: Case, view: RecordView, rpc: Rpc, rd: Reading, now: int)
    ensures Alone(cfg, c, IngestRecord(view), rpc, rd, now) == Done(cfg, c, Ingest(view), now)
  {
    hide RunAlone, Decide;
    RunLast(cfg, c, Must(Insert(view)), Delivered, rd, now);
  }

  /** The worker's visit and the inline match both start with a test that may end the program. */
  lemma RunIf(cfg: Config, c: Case, test: Line, holds: bool, rd: Reading, now: int)
    requires test.stmt.Poll? || test.stmt.CheckAbsent?
    requires Adds(cfg, c, test.stmt, rd, now) == Some(if holds then [Must(ReadOld)] else [])
    ensures RunAlone(cfg, c, [test], Delivered, rd, now) == if holds then ReconcileOne(c, cfg.rules, rd, now).c else c
  {
    hide RunAlone, Decide, Adds, ReconcileOne;
    assert [test] + [] == [test] && [Must(ReadOld)] + [] == [Must(ReadOld)] && AfterFailure([]) == [];
    RunRead(cfg, c, test, if holds then [Must(ReadOld)] else [], [], Delivered, rd, now);
    if holds {
      RunReconcile(cfg, c, [], Delivered, rd, now);
      RunNothing(cfg, ReconcileOne(c, cfg.rules, rd, now).c, Delivered, rd, now);
    } else {
      var none: Todo := [];
      assert none + none == none;
      RunNothing(cfg, c, Delivered, rd, now);
    }
  }

  lemma AlonePoll(cfg: Config, c: Case, rpc: Rpc, rd: Reading, now: int)
    requires IsReading(rd, c.records)
    ensures Alone(cfg, c, PollOne, rpc, rd, now) == Done(cfg, c, WorkerVisit(rd), now)
  {
    hide RunAlone, ReconcileOne;
    RunIf(cfg, c, Must(Poll), NeedsWork(c, BackoffCutoff(cfg, now)), rd, now);
  }

  lemma AloneQuery(cfg: Config, c: Case, rpc: Rpc, rd: Reading, now: int)
    requires IsReading(rd, c.records)
    ensures Alone(cfg, c, QueryState, rpc, rd, now) == Done(cfg, c, Query(rd), now)
  {
    hide RunAlone, ReconcileOne;
    RunIf(cfg, c, Must(CheckAbsent), c.row.None?, rd, now);
  }

  lemma AloneRetrigger(cfg: Config, c: Case, rpc: Rpc, rd: Reading, now: int)
    requires IsReading(rd, c.records)
    ensures Alone(cfg, c, RetriggerMatch, rpc, rd, now) == Done(cfg, c, Retrigger(rd), now)
  {
    hide RunAlone, Decide;
    RunRetriggerOnly(cfg, c, rd, now);
  }

  lemma AloneRetry(cfg: Config, c: Case, picked: Option<Source>, rpc: Rpc, rd: Reading, now: int)
    requires IsReading(rd, c.records)
    ensures Alone(cfg, c, RetryDue(picked), rpc, rd, now) == Done(cfg, c, RetryVisit(rpc, rd, picked), now)
  {
    hide RunAlone, Decide;
    RunNothing(cfg, c, rpc, rd, now);
    var fetch := Must(FetchDue(picked));
    assert [fetch] + [] == [fetch];
    if Due(c, now) {
      var lines := RetriggerLines() + [Must(FetchReply(c.entry.value, picked))];
      RunEngineCall(cfg, c, c.entry.value, picked, rpc, rd, now);
      assert lines + [] == lines;
      RunRead(cfg, c, fetch, lines, [], rpc, rd, now);
    } else {
      var none: Todo := [];
      assert none + none == none;
      RunRead(cfg, c, fetch, [], [], rpc, rd, now);
    }
  }

  lemma AloneResolve(cfg: Config, c: Case, r: ResolutionRow, rpc: Rpc, rd: Reading, now: int)
    ensures Alone(cfg, c, ResolveAs(r), rpc, rd, now) == Done(cfg, c, ActionOf(ResolveAs(r), rpc, rd), now)
  {
    hide RunAlone, Decide;
    RunNothing(cfg, c, Delivered, rd, now);
    var check := Must(CheckResolve(r));
    var lines := if Resolvable(c) then ResolveLines(r, StatusBefore(c)) else [];
    assert [check] + [] == [check] && lines + [] == lines;
    RunRead(cfg, c, check, lines, [], Delivered, rd, now);
    if Resolvable(c) { RunResolve(cfg, c, r, Delivered, rd, now); }
  }

  lemma AloneEnqueue(cfg: Config, c: Case, m: int, who: nat, rpc: Rpc, rd: Reading, now: int)
    ensures Alone(cfg, c, EnqueueFor(m, who), rpc, rd, now) == Done(cfg, c, EnqueueRetry(m, who), now)
  {
    hide RunAlone, Decide;
    RunNothing(cfg, c, Delivered, rd, now);
    var check := Must(CheckEnqueue(m, who));
    var lines := if c.HasStatus(MISMATCHED) then EnqueueLines(m, who, MISMATCHED) else [];
    assert [check] + [] == [check] && lines + [] == lines;
    RunRead(cfg, c, check, lines, [], Delivered, rd, now);
    if c.HasStatus(MISMATCHED) { RunLastTwo(cfg, c, lines[0], lines[1], Delivered, rd, now); }
  }

  // ---------------------------------------------------------------- as steps of the whole system

  predicate NeverReads(todo: Todo) {
    forall line :: line in todo ==> IsWrite(line.stmt) || line.stmt.CheckResolve? || line.stmt.CheckEnqueue?
  }

  predicate NeverInserts(todo: Todo) { forall line :: line in todo ==> !line.stmt.Insert? }

  /** The reading taken at the start is still one when the client gets to use it. */
  ghost predicate Steady(c: Case, todo: Todo, rd: Reading) {
    NeverReads(todo) || (NeverInserts(todo) && IsReading(rd, c.records))
  }

  lemma AddsNeverInserts(cfg: Config, c: Case, stmt: Stmt, rd: Reading, now: int)
    ensures var added := Adds(cfg, c, stmt, rd, now); added.Some? ==> NeverInserts(added.value)
  {}

  lemma AddsNeverReads(cfg: Config, c: Case, stmt: Stmt, rd: Reading, now: int)
    requires IsWrite(stmt) || stmt.CheckResolve? || stmt.CheckEnqueue?
    ensures var added := Adds(cfg, c, stmt, rd, now); added.Some? && NeverReads(added.value)
  {}

  lemma EffectKeepsRecords(cfg: Config, c: Case, stmt: Stmt, now: int)
    requires !stmt.Insert?
    ensures Effect(cfg, c, stmt, now).records == c.records
  {}

  lemma FailureNeverInserts(todo: Todo)
    ensures NeverInserts(AfterFailure(todo))
  {}

  lemma ExecSteady(cfg: Config, c: Case, todo: Todo, rd: Reading, now: int)
    requires todo != [] && Steady(c, todo, rd)
    ensures Steady(Effect(cfg, c, todo[0].stmt, now), AfterExec(cfg, c, todo, rd, now), rd)
    ensures todo[0].stmt.ReadRecords? ==> IsReading(rd, c.records)
  {
    hide Adds, Effect, AfterFailure, IsReading;
    assert todo[0] in todo;
    if NeverReads(todo) {
      AddsNeverReads(cfg, c, todo[0].stmt, rd, now);
    } else {
      AddsNeverInserts(cfg, c, todo[0].stmt, rd, now);
      EffectKeepsRecords(cfg, c, todo[0].stmt, now);
      FailureNeverInserts(todo[1..]);
    }
  }

  lemma FailSteady(c: Case, todo: Todo, rd: Reading)
    requires todo != [] && Steady(c, todo, rd)
    ensures Steady(c, AfterFail(todo), rd)
  {
    if NeverReads(todo) { FailureOfWrites(todo); }
  }

  lemma FailureOfWrites(todo: Todo)
    requires NeverReads(todo)
    ensures AfterFailure(todo) == []
  {}

  /** Client k takes its remaining steps one after the other. */
  lemma {:induction false} AloneSteps(cfg: Config, w: World, k: nat, rpc: Rpc, rd: Reading) returns (steps: seq<Step>)
    requires w.Ready(k) && Steady(w.At(w.clients[k].ref), w.clients[k].todo, rd)
    ensures IsRun(cfg, w, steps)
    ensures rpc == Delivered ==> forall step :: step in steps ==> step.Exec?
    ensures var client := w.clients[k];
      End(cfg, w, steps) == w.Replace(k, RunAlone(cfg, w.At(client.ref), client.todo, rpc, rd, w.now), [])
    decreases TotalWeight(w.clients[k].todo, |rd.unique|)
  {
    hide Adds, Effect, TotalWeight, AfterExec, AfterFail;
    var c, todo := w.At(w.clients[k].ref), w.clients[k].todo;
    var step;
    if Drops(todo[0].stmt, rpc) {
      FailSteady(c, todo, rd);
      FailWeighs(todo, |rd.unique|);
      step := Fail(k, false);
    } else {
      ExecSteady(cfg, c, todo, rd, w.now);
      ExecWeighs(cfg, c, todo, rd, w.now);
      step := Exec(k, rd);
    }
    var w' := Next(cfg, w, step);
    if w'.clients[k].todo == [] {
      steps := [step];
    } else {
      var more := AloneSteps(cfg, w', k, rpc, rd);
      steps := [step] + more;
      assert steps[1..] == more;
    }
  }

  /** From any state, an operation can start and run undisturbed, with its one-step effect. */
  lemma OperationSteps(cfg: Config, w: World, ref: Ref, op: Operation, rpc: Rpc, rd: Reading) returns (steps: seq<Step>)
    requires IsReading(rd, w.At(ref).records) || ReadsNothing(op)
    requires op.RetryDue? || rpc == Delivered
    ensures IsRun(cfg, w, steps)
    ensures rpc == Delivered ==> forall step :: step in steps ==> step == Spawn(ref, op) || step.Exec?
    ensures var e, d := End(cfg, w, steps), Done(cfg, w.At(ref), ActionOf(op, rpc, rd), w.now);
      e == World(w.cases[ref := d], w.now, w.clients + [Client(ref, [])])
  {
    hide Done, RunAlone, TotalWeight, Adds, Effect, IsReading;
    var started := Next(cfg, w, Spawn(ref, op));
    var k := |w.clients|;
    var more := AloneSteps(cfg, started, k, rpc, rd);
    steps := [Spawn(ref, op)] + more;
    assert steps[1..] == more;
    AloneIsAtomic(cfg, w.At(ref), op, rpc, rd, w.now);
  }

  // ---------------------------------------------------------------- runs of whole operations

  ghost predicate SameTables(s: Protocol.State, w: World) {
    s.now == w.now && forall ref :: Protocol.At(s, ref) == w.At(ref)
  }

  /** The program behind a one-step operation; None for an auto-resolve whose strategy fails. */
  function OperationOf(a: Action): Option<Operation> {
    match a
    case Ingest(view) => Some(IngestRecord(view))
    case WorkerVisit(_) => Some(PollOne)
    case Query(_) => Some(QueryState)
    case Retrigger(_) => Some(RetriggerMatch)
    case RetryVisit(_, _, picked) => Some(RetryDue(picked))
    case ResolveManually(chosen, resolver) => Some(ResolveAs(ResolutionRow(MANUAL, chosen, resolver)))
    case AutoResolve(picked, resolver) =>
      if picked.Some? then Some(ResolveAs(ResolutionRow(AUTO, picked.value, resolver))) else None
    case EnqueueRetry(maxAttempts, requestedBy) => Some(EnqueueFor(maxAttempts, requestedBy))
  }

  const NOTHING_READ := Reading([], [])

  function RpcOf(a: Action): Rpc { if a.RetryVisit? then a.rpc else Delivered }

  function ReadingOf(a: Action): Reading {
    match a
    case WorkerVisit(rd) => rd
    case Query(rd) => rd
    case Retrigger(rd) => rd
    case RetryVisit(_, rd, _) => rd
    case _ => NOTHING_READ
  }

  lemma ActionSteps(cfg: Config, w: World, ref: Ref, a: Action) returns (steps: seq<Step>)
    requires Enabled(cfg, w.At(ref), a, w.now)
    ensures IsRun(cfg, w, steps)
    ensures var e := End(cfg, w, steps);
      e.now == w.now && e.At(ref) == After(cfg, w.At(ref), a, w.now) && forall r :: r != ref ==> e.At(r) == w.At(r)
  {
    hide IsReading, ReconcileOne;
    var op := OperationOf(a);
    if op.None? {
      steps := [];
    } else {
      hide IsRun, End;
      assert ActionOf(op.value, RpcOf(a), ReadingOf(a)) == a;
      steps := OperationSteps(cfg, w, ref, op.value, RpcOf(a), ReadingOf(a));
    }
  }

  /** Refinement: every run of whole operations is matched, table by table, by a run of single
      statements. */
  lemma {:induction false} AtomicRunEmbeds(cfg: Config, s: Protocol.State, ops: seq<Protocol.Step>, w: World)
    returns (steps: seq<Step>)
    requires Protocol.IsRun(cfg, s, ops) && SameTables(s, w)
    ensures IsRun(cfg, w, steps) && SameTables(Protocol.End(cfg, s, ops), End(cfg, w, steps))
    decreases |ops|
  {
    if ops == [] {
      steps := [];
    } else {
      var first := OneOperation(cfg, s, ops[0], w);
      var rest := AtomicRunEmbeds(cfg, Protocol.Next(cfg, s, ops[0]), ops[1..], End(cfg, w, first));
      RunsCompose(cfg, w, first, rest);
      steps := first + rest;
    }
  }

  lemma OneOperation(cfg: Config, s: Protocol.State, op: Protocol.Step, w: World) returns (steps: seq<Step>)
    requires Protocol.CanStep(cfg, s, op) && SameTables(s, w)
    ensures IsRun(cfg, w, steps) && SameTables(Protocol.Next(cfg, s, op), End(cfg, w, steps))
  {
    match op
    case Tick(later) =>
      steps := [Tick(later)];
      assert steps[1..] == [];
      forall ref ensures Protocol.At(Protocol.Next(cfg, s, op), ref) == End(cfg, w, steps).At(ref) {
        assert Protocol.At(s, ref) == w.At(ref);
      }
    case On(ref, a) =>
      steps := ActionSteps(cfg, w, ref, a);
  }
}
