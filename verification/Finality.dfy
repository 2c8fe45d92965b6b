/** When a resolution is final although statements interleave, exactly. */
module Finality {
  import opened Wrappers
  import opened Rules
  import opened Matcher
  import opened MatcherLaws
  import opened Cases
  import opened Transitions
  import opened Backoff
  import opened Statements
  import opened Refinement
  import opened Races
  import Interleaving
  import Survival

  // ---------------------------------------------------------------- the condition

  /** From RESOLVED, going on now, this statement leads to another status. */
  predicate Reopens(cfg: Config, stmt: Stmt, now: int) {
    match stmt
    case Reset => true
    case ReadOld => true
    case ReadRecords(_) => true
    case UpsertState(_, _) => true
    case Match(_, rd) => rd.rows != [] && Decide(rd.unique, cfg.rules, FirstSeen(rd.rows), now).Ok?
    case _ => false
  }

  /** It will set the queue entry to EXHAUSTED, from which an enqueue opens it. */
  predicate Exhausts(stmt: Stmt) {
    match stmt
    case Mark(s) => s == EXHAUSTED
    case React(q, reply, _) => reply == Answer(MISMATCHED) && q.attemptCount + 1 >= q.maxAttempts
    case _ => false
  }

  /** Some client on `ref` has the line ahead of it. */
  ghost predicate Held(w: World, ref: Ref, line: Line) {
    exists k :: 0 <= k < |w.clients| && w.clients[k].ref == ref && line in w.clients[k].todo
  }

  ghost predicate HoldsEnqueue(w: World, ref: Ref) { exists line :: Held(w, ref, line) && line.stmt.Enqueue? }

  predicate Closed(c: Case) { c.entry.Some? && c.entry.value.status == DONE }

  /** The entry is not open, nobody is about to change the status, and whoever is about to enqueue
      finds the entry RESOLVED. */
  ghost predicate StaysResolved(cfg: Config, w: World, ref: Ref) {
    && !w.At(ref).Queued()
    && (forall line :: Held(w, ref, line) ==> !Reopens(cfg, line.stmt, w.now))
    && (HoldsEnqueue(w, ref) ==> Closed(w.At(ref)) && forall line :: Held(w, ref, line) ==> !Exhausts(line.stmt))
  }

  // ---------------------------------------------------------------- keeping

  /** With `enqueuing` clients the entry has to stay RESOLVED; without, it has to stay shut. */
  predicate Shut(enqueuing: bool, c: Case) { c.HasStatus(RESOLVED) && if enqueuing then Closed(c) else !c.Queued() }

  predicate Keeps(cfg: Config, enqueuing: bool, stmt: Stmt, now: int) {
    && !Reopens(cfg, stmt, now) && stmt != Mark(QUEUED)
    && if enqueuing then !Exhausts(stmt) else !stmt.Enqueue?
  }

  ghost predicate AllKeep(cfg: Config, enqueuing: bool, todo: Todo, now: int) {
    forall line :: line in todo ==> Keeps(cfg, enqueuing, line.stmt, now)
  }

  ghost predicate Guarded(cfg: Config, enqueuing: bool, w: World, ref: Ref) {
    && Shut(enqueuing, w.At(ref))
    && forall k :: 0 <= k < |w.clients| && w.clients[k].ref == ref ==> AllKeep(cfg, enqueuing, w.clients[k].todo, w.now)
  }

  lemma EffectKeeps(cfg: Config, enqueuing: bool, c: Case, stmt: Stmt, now: int)
    requires Shut(enqueuing, c) && Keeps(cfg, enqueuing, stmt, now)
    ensures Shut(enqueuing, Effect(cfg, c, stmt, now))
  {}

  lemma ReactionKeeps(cfg: Config, enqueuing: bool, q: QueueRow, reply: EngineReply, picked: Option<Source>, now: int)
    requires enqueuing ==> !Exhausts(React(q, reply, picked))
    ensures AllKeep(cfg, enqueuing, ReactionLines(cfg, q, reply, picked, now), now)
  {
    hide ExhaustedLines, NextRetryTime;
    if reply == Answer(MISMATCHED) && q.attemptCount + 1 >= q.maxAttempts { ExhaustedKeeps(cfg, picked, now); }
  }

  lemma ExhaustedKeeps(cfg: Config, picked: Option<Source>, now: int)
    ensures AllKeep(cfg, false, ExhaustedLines(cfg, picked), now)
  {}

  lemma AddsKeep(cfg: Config, enqueuing: bool, c: Case, stmt: Stmt, rd: Reading, now: int)
    requires Shut(enqueuing, c) && Keeps(cfg, enqueuing, stmt, now)
    ensures var added := Adds(cfg, c, stmt, rd, now); added.Some? ==> AllKeep(cfg, enqueuing, added.value, now)
  {
    hide Decide, ReactionLines;
    if stmt.React? { ReactionKeeps(cfg, enqueuing, stmt.fetched, stmt.reply, stmt.picked, now); }
  }

  lemma FailureKeeps(cfg: Config, enqueuing: bool, todo: Todo, now: int)
    ensures AllKeep(cfg, enqueuing, AfterFailure(todo), now)
  {}

  lemma ExecKeeps(cfg: Config, enqueuing: bool, c: Case, todo: Todo, rd: Reading, now: int)
    requires Shut(enqueuing, c) && todo != [] && AllKeep(cfg, enqueuing, todo, now)
    ensures Shut(enqueuing, Effect(cfg, c, todo[0].stmt, now))
    ensures AllKeep(cfg, enqueuing, AfterExec(cfg, c, todo, rd, now), now)
  {
    assert todo[0] in todo;
    hide Adds, AfterFailure, Effect, Keeps, Shut;
    EffectKeeps(cfg, enqueuing, c, todo[0].stmt, now);
    AddsKeep(cfg, enqueuing, c, todo[0].stmt, rd, now);
    FailureKeeps(cfg, enqueuing, todo[1..], now);
  }

  lemma FailKeeps(cfg: Config, enqueuing: bool, c: Case, todo: Todo, now: int)
    requires Shut(enqueuing, c) && todo != [] && AllKeep(cfg, enqueuing, todo, now)
    ensures Shut(enqueuing, Effect(cfg, c, todo[0].stmt, now)) && AllKeep(cfg, enqueuing, AfterFail(todo), now)
  {
    assert todo[0] in todo;
    hide AfterFailure, Effect, Keeps, Shut;
    EffectKeeps(cfg, enqueuing, c, todo[0].stmt, now);
    FailureKeeps(cfg, enqueuing, todo, now);
  }

  /** An amount that stops a match now stops it later as well. */
  lemma LaterKeeps(cfg: Config, enqueuing: bool, stmt: Stmt, now: int, later: int)
    requires Keeps(cfg, enqueuing, stmt, now) && now <= later
    ensures Keeps(cfg, enqueuing, stmt, later)
  {}

  lemma ReplaceGuarded(cfg: Config, enqueuing: bool, w: World, ref: Ref, k: nat, c: Case, todo: Todo)
    requires Guarded(cfg, enqueuing, w, ref) && k < |w.clients|
    requires w.clients[k].ref == ref ==> Shut(enqueuing, c) && AllKeep(cfg, enqueuing, todo, w.now)
    ensures Guarded(cfg, enqueuing, w.Replace(k, c, todo), ref)
  {}

  lemma ProgramKeeps(cfg: Config, enqueuing: bool, op: Operation, now: int)
    requires op != RetriggerMatch
    ensures AllKeep(cfg, enqueuing, Program(op), now)
  {}

  lemma OrphanKeeps(cfg: Config, enqueuing: bool, todo: Todo, now: int)
    requires AllKeep(cfg, enqueuing, todo, now)
    ensures AllKeep(cfg, enqueuing, Orphaned(todo), now)
  {
    forall line | line in Orphaned(todo) ensures line in todo {
      var i :| 0 <= i < |Orphaned(todo)| && Orphaned(todo)[i] == line;
      assert todo[i] == line;
    }
  }

  lemma StepKeeps(cfg: Config, enqueuing: bool, w: World, step: Step, ref: Ref)
    requires Guarded(cfg, enqueuing, w, ref) && CanStep(w, step) && !StartsRetrigger(step, ref)
    ensures Guarded(cfg, enqueuing, Next(cfg, w, step), ref)
  {
    hide Adds, Effect, AfterExec, AfterFail, AfterFailure, Orphaned, Program, Keeps, Shut;
    match step
    case Tick(later) =>
      forall k, line | 0 <= k < |w.clients| && w.clients[k].ref == ref && line in w.clients[k].todo
        ensures Keeps(cfg, enqueuing, line.stmt, later)
      {
        LaterKeeps(cfg, enqueuing, line.stmt, w.now, later);
      }
    case Spawn(_, op) => if op != RetriggerMatch { ProgramKeeps(cfg, enqueuing, op, w.now); }
    case Exec(k, rd) =>
      var c, todo := w.At(w.clients[k].ref), w.clients[k].todo;
      if w.clients[k].ref == ref { ExecKeeps(cfg, enqueuing, c, todo, rd, w.now); }
      ReplaceGuarded(cfg, enqueuing, w, ref, k, Effect(cfg, c, todo[0].stmt, w.now), AfterExec(cfg, c, todo, rd, w.now));
    case Fail(k, applied) =>
      var c, todo := w.At(w.clients[k].ref), w.clients[k].todo;
      if w.clients[k].ref == ref { FailKeeps(cfg, enqueuing, c, todo, w.now); }
      ReplaceGuarded(cfg, enqueuing, w, ref, k, if applied then Effect(cfg, c, todo[0].stmt, w.now) else c,
                     AfterFail(todo));
    case Crash(k) => ReplaceGuarded(cfg, enqueuing, w, ref, k, w.At(w.clients[k].ref), []);
    case Detach(k) =>
      if w.clients[k].ref == ref {
        OrphanKeeps(cfg, enqueuing, w.clients[k].todo, w.now);
        FailureKeeps(cfg, enqueuing, w.clients[k].todo, w.now);
      }
  }

  lemma {:induction false} RunKeeps(cfg: Config, enqueuing: bool, w: World, steps: seq<Step>, ref: Ref)
    requires Guarded(cfg, enqueuing, w, ref) && IsRun(cfg, w, steps) && NoRetrigger(steps, ref)
    ensures End(cfg, w, steps).At(ref).HasStatus(RESOLVED)
    decreases |steps|
  {
    if steps != [] {
      assert steps[0] in steps;
      StepKeeps(cfg, enqueuing, w, steps[0], ref);
      RunKeeps(cfg, enqueuing, Next(cfg, w, steps[0]), steps[1..], ref);
    }
  }

  // ---------------------------------------------------------------- the shape of programs

  predicate Turns(stmt: Stmt) {
    stmt.Reset? || stmt.ReadOld? || stmt.ReadRecords? || stmt.Match? || stmt.UpsertState?
  }

  /** Running it leaves a RESOLVED row and the records as they are, unless it is the reset. */
  predicate Soft(stmt: Stmt) { IsWrite(stmt) && !stmt.Insert? && !stmt.UpsertState? }

  predicate NoTurns(todo: Todo) { forall line :: line in todo ==> !Turns(line.stmt) }

  /** Only soft writes come before a line that turns the status. */
  predicate Direct(todo: Todo) {
    todo == [] || if Soft(todo[0].stmt) then Direct(todo[1..]) else NoTurns(todo[1..])
  }

  predicate Front(stmt: Stmt) { stmt.Enqueue? || stmt.React? || (stmt.Mark? && stmt.s != DONE) }

  predicate NoFront(todo: Todo) { forall line :: line in todo ==> !Front(line.stmt) }

  predicate NeverOpens(todo: Todo) { forall line :: line in todo ==> line.stmt != Mark(QUEUED) }

  /** What all programs look like at any time. */
  predicate Shaped(todo: Todo) {
    Direct(todo) && NeverOpens(todo) && (todo == [] || NoFront(todo[1..]))
  }

  ghost predicate AllShaped(w: World) { forall k :: 0 <= k < |w.clients| ==> Shaped(w.clients[k].todo) }

  lemma {:induction false} DirectJoin(a: Todo, b: Todo)
    requires Direct(a) && NoTurns(b)
    ensures Direct(a + b)
  {
    if a == [] {
      NoTurnsDirect(b);
      assert a + b == b;
    } else {
      assert (a + b)[1..] == a[1..] + b;
      if Soft(a[0].stmt) { DirectJoin(a[1..], b); }
    }
  }

  lemma {:induction false} NoTurnsDirect(todo: Todo)
    requires NoTurns(todo)
    ensures Direct(todo)
  {
    if todo != [] { NoTurnsDirect(todo[1..]); }
  }

  lemma {:induction false} DirectPrefix(todo: Todo, prefix: Todo)
    requires Direct(todo) && prefix <= todo
    ensures Direct(prefix)
  {
    if prefix != [] {
      if Soft(todo[0].stmt) {
        DirectPrefix(todo[1..], prefix[1..]);
      } else {
        PrefixIn(todo[1..], prefix[1..]);
      }
    }
  }

  lemma PrefixIn(todo: Todo, prefix: Todo)
    requires prefix <= todo
    ensures forall line :: line in prefix ==> line in todo
  {
    forall line | line in prefix ensures line in todo {
      var i :| 0 <= i < |prefix| && prefix[i] == line;
      assert todo[i] == line;
    }
  }

  lemma ShapedPrefix(todo: Todo, prefix: Todo)
    requires Shaped(todo) && prefix <= todo
    ensures Shaped(prefix)
  {
    DirectPrefix(todo, prefix);
    PrefixIn(todo, prefix);
    if prefix != [] { PrefixIn(todo[1..], prefix[1..]); }
  }

  lemma ShapedJoin(a: Todo, b: Todo)
    requires Shaped(a) && a != [] && NoTurns(b) && NoFront(b) && NeverOpens(b)
    ensures Shaped(a + b)
  {
    DirectJoin(a, b);
    assert (a + b)[1..] == a[1..] + b;
  }

  /** Enough for a program without turning lines. */
  lemma PlainShaped(todo: Todo)
    requires NoTurns(todo) && NeverOpens(todo) && forall i :: 1 <= i < |todo| ==> !Front(todo[i].stmt)
    ensures Shaped(todo)
  {
    NoTurnsDirect(todo);
  }

  lemma ExhaustedShaped(cfg: Config, picked: Option<Source>)
    ensures Shaped(ExhaustedLines(cfg, picked))
  {
    hide Direct, Shaped;
    PlainShaped(ExhaustedLines(cfg, picked));
  }

  lemma ReactionShaped(cfg: Config, q: QueueRow, reply: EngineReply, picked: Option<Source>, now: int)
    ensures Shaped(ReactionLines(cfg, q, reply, picked, now))
  {
    hide Direct, Shaped, ExhaustedLines;
    if reply == Answer(MISMATCHED) && q.attemptCount + 1 >= q.maxAttempts {
      ExhaustedShaped(cfg, picked);
    } else {
      PlainShaped(ReactionLines(cfg, q, reply, picked, now));
    }
  }

  lemma WritesShaped(o: Outcome, n: nat, prior: OldStatus)
    ensures Shaped(WriteLines(o, n, prior))
  {}

  lemma RetriggerShaped()
    ensures Shaped(RetriggerLines())
  {
    var lines := RetriggerLines();
    assert lines[1..][1..] == [lines[2]];
  }

  lemma OthersShaped(cfg: Config, c: Case, stmt: Stmt, rd: Reading, now: int)
    requires stmt.CheckResolve? || stmt.CheckEnqueue?
    ensures Shaped(Adds(cfg, c, stmt, rd, now).value)
  {
    hide Direct, Shaped, Resolvable, StatusBefore;
    PlainShaped(Adds(cfg, c, stmt, rd, now).value);
  }

  lemma FetchShaped(q: QueueRow, picked: Option<Source>)
    ensures Shaped(RetriggerLines() + [Must(FetchReply(q, picked))])
  {
    RetriggerShaped();
    ShapedJoin(RetriggerLines(), [Must(FetchReply(q, picked))]);
  }

  lemma AddsShaped(cfg: Config, c: Case, stmt: Stmt, rd: Reading, now: int)
    ensures var added := Adds(cfg, c, stmt, rd, now); added.Some? ==> Shaped(added.value)
  {
    hide Decide, NeedsWork, ReactionLines, WriteLines, RetriggerLines;
    match stmt
    case Match(prior, read) =>
      if read.rows != [] {
        var decision := Decide(read.unique, cfg.rules, FirstSeen(read.rows), now);
        if decision.Ok? { WritesShaped(decision.outcome, |read.rows|, prior); }
      }
    case React(q, reply, picked) => ReactionShaped(cfg, q, reply, picked, now);
    case FetchDue(picked) => if Due(c, now) { FetchShaped(c.entry.value, picked); }
    case CheckResolve(_) => OthersShaped(cfg, c, stmt, rd, now);
    case CheckEnqueue(_, _) => OthersShaped(cfg, c, stmt, rd, now);
    case _ =>
  }

  lemma FailureShaped(todo: Todo)
    ensures Shaped(AfterFailure(todo))
  {}

  lemma TailShaped(todo: Todo)
    requires Shaped(todo) && todo != []
    ensures Shaped(todo[1..])
  {
    if !Soft(todo[0].stmt) { NoTurnsDirect(todo[1..]); }
  }

  lemma ExecShaped(cfg: Config, c: Case, todo: Todo, rd: Reading, now: int)
    requires todo != [] && Shaped(todo)
    ensures Shaped(AfterExec(cfg, c, todo, rd, now))
  {
    hide Adds, AfterFailure;
    AddsShaped(cfg, c, todo[0].stmt, rd, now);
    FailureShaped(todo[1..]);
    TailShaped(todo);
    var added := Adds(cfg, c, todo[0].stmt, rd, now);
    if added == Some([]) {
      assert [] + todo[1..] == todo[1..];
    } else if added.Some? {
      if IsWrite(todo[0].stmt) { Survival.WriteAddsNothing(cfg, c, todo[0].stmt, rd, now); }
      ShapedJoin(added.value, todo[1..]);
    }
  }

  lemma FailShaped(todo: Todo)
    requires todo != [] && Shaped(todo)
    ensures Shaped(AfterFail(todo))
  {
    TailShaped(todo);
    FailureShaped(todo);
  }

  lemma ProgramShaped(op: Operation)
    ensures Shaped(Program(op))
  {
    RetriggerShaped();
  }

  lemma StepShaped(cfg: Config, w: World, step: Step)
    requires AllShaped(w) && CanStep(w, step)
    ensures AllShaped(Next(cfg, w, step))
  {
    hide Adds, Effect, AfterExec, AfterFail, AfterFailure, Orphaned, Program, Shaped;
    match step
    case Tick(_) =>
    case Spawn(_, op) => ProgramShaped(op);
    case Exec(k, rd) => ExecShaped(cfg, w.At(w.clients[k].ref), w.clients[k].todo, rd, w.now);
    case Fail(k, _) => FailShaped(w.clients[k].todo);
    case Crash(_) => PlainShaped([]);
    case Detach(k) =>
      ShapedPrefix(w.clients[k].todo, Orphaned(w.clients[k].todo));
      FailureShaped(w.clients[k].todo);
  }

  lemma {:induction false} RunShaped(cfg: Config, w: World, steps: seq<Step>)
    requires AllShaped(w) && IsRun(cfg, w, steps)
    ensures AllShaped(End(cfg, w, steps))
    decreases |steps|
  {
    if steps != [] {
      StepShaped(cfg, w, steps[0]);
      RunShaped(cfg, Next(cfg, w, steps[0]), steps[1..]);
    }
  }

  // ---------------------------------------------------------------- losing

  predicate AllParse(unique: seq<RecordView>) { forall i :: 0 <= i < |unique| ==> Parses(unique[i]) }

  ghost predicate Readable(records: seq<RecordView>) {
    exists rd: Reading :: IsReading(rd, records) && rd.rows != [] && AllParse(rd.unique)
  }

  lemma FirstStep(cfg: Config, w: World, step: Step, more: seq<Step>, ref: Ref) returns (steps: seq<Step>)
    requires CanStep(w, step) && !step.Spawn? && IsRun(cfg, Next(cfg, w, step), more) && NoRetrigger(more, ref)
    ensures IsRun(cfg, w, steps) && NoRetrigger(steps, ref)
    ensures End(cfg, w, steps) == End(cfg, Next(cfg, w, step), more)
  {
    hide CanStep, Next;
    steps := [step] + more;
    assert steps[1..] == more;
  }

  /** The client's next line is the upsert of a match, or a reset. */
  lemma LoseAtWrite(cfg: Config, w: World, k: nat) returns (steps: seq<Step>)
    requires w.Ready(k) && (w.clients[k].todo[0].stmt.UpsertState? || w.clients[k].todo[0].stmt.Reset?)
    ensures IsRun(cfg, w, steps) && NoRetrigger(steps, w.clients[k].ref)
    ensures !End(cfg, w, steps).At(w.clients[k].ref).HasStatus(RESOLVED)
  {
    hide AfterExec, IsRun, End;
    SingleStep(cfg, w, Exec(k, NOTHING_READ));
    steps := [Exec(k, NOTHING_READ)];
  }

  lemma MatchLeads(cfg: Config, c: Case, todo: Todo, now: int)
    requires todo != [] && todo[0].stmt.Match? && Reopens(cfg, todo[0].stmt, now)
    ensures var rest := AfterExec(cfg, c, todo, NOTHING_READ, now); rest != [] && rest[0].stmt.UpsertState?
  {
    hide Decide;
  }

  lemma LoseAtMatch(cfg: Config, w: World, k: nat) returns (steps: seq<Step>)
    requires w.Ready(k) && w.clients[k].todo[0].stmt.Match? && Reopens(cfg, w.clients[k].todo[0].stmt, w.now)
    ensures IsRun(cfg, w, steps) && NoRetrigger(steps, w.clients[k].ref)
    ensures !End(cfg, w, steps).At(w.clients[k].ref).HasStatus(RESOLVED)
  {
    MatchLeads(cfg, w.At(w.clients[k].ref), w.clients[k].todo, w.now);
    hide AfterExec, Reopens, Effect, IsRun, End;
    var step := Exec(k, NOTHING_READ);
    var more := LoseAtWrite(cfg, Next(cfg, w, step), k);
    steps := FirstStep(cfg, w, step, more, w.clients[k].ref);
  }

  lemma RecordsLead(cfg: Config, c: Case, todo: Todo, rd: Reading, now: int)
    requires todo != [] && todo[0].stmt.ReadRecords? && rd.rows != [] && AllParse(rd.unique)
    ensures var rest := AfterExec(cfg, c, todo, rd, now);
      rest != [] && rest[0].stmt.Match? && Reopens(cfg, rest[0].stmt, now)
  {
    hide Decide;
    WellFormedAmountsDecide(rd.unique, cfg.rules, FirstSeen(rd.rows), now);
  }

  lemma LoseAtRecords(cfg: Config, w: World, k: nat) returns (steps: seq<Step>)
    requires w.Ready(k) && w.clients[k].todo[0].stmt.ReadRecords? && Readable(w.At(w.clients[k].ref).records)
    ensures IsRun(cfg, w, steps) && NoRetrigger(steps, w.clients[k].ref)
    ensures !End(cfg, w, steps).At(w.clients[k].ref).HasStatus(RESOLVED)
  {
    hide IsReading;
    var rd: Reading :| IsReading(rd, w.At(w.clients[k].ref).records) && rd.rows != [] && AllParse(rd.unique);
    RecordsLead(cfg, w.At(w.clients[k].ref), w.clients[k].todo, rd, w.now);
    hide AfterExec, Reopens, Effect, AllParse, IsRun, End;
    var step := Exec(k, rd);
    var more := LoseAtMatch(cfg, Next(cfg, w, step), k);
    steps := FirstStep(cfg, w, step, more, w.clients[k].ref);
  }

  lemma LoseAtRead(cfg: Config, w: World, k: nat) returns (steps: seq<Step>)
    requires w.Ready(k) && w.clients[k].todo[0].stmt.ReadOld? && Readable(w.At(w.clients[k].ref).records)
    ensures IsRun(cfg, w, steps) && NoRetrigger(steps, w.clients[k].ref)
    ensures !End(cfg, w, steps).At(w.clients[k].ref).HasStatus(RESOLVED)
  {
    hide Readable, IsRun, End;
    var step := Exec(k, NOTHING_READ);
    var more := LoseAtRecords(cfg, Next(cfg, w, step), k);
    steps := FirstStep(cfg, w, step, more, w.clients[k].ref);
  }

  ghost predicate HoldsReopening(cfg: Config, todo: Todo, now: int) {
    exists line :: line in todo && Reopens(cfg, line.stmt, now)
  }

  /** Behind a soft write the line is still ahead; anything else is the line itself. */
  lemma HeadReopens(cfg: Config, todo: Todo, now: int)
    requires Direct(todo) && HoldsReopening(cfg, todo, now)
    ensures todo != []
    ensures Reopens(cfg, todo[0].stmt, now) ||
      (Soft(todo[0].stmt) && Direct(todo[1..]) && HoldsReopening(cfg, todo[1..], now))
  {
    hide Decide;
    var line :| line in todo && Reopens(cfg, line.stmt, now);
    if line != todo[0] { assert line in todo[1..]; }
  }

  lemma SoftStep(cfg: Config, w: World, k: nat)
    requires w.Ready(k) && Soft(w.clients[k].todo[0].stmt) && !w.clients[k].todo[0].stmt.Reset?
    requires w.At(w.clients[k].ref).HasStatus(RESOLVED)
    ensures CanStep(w, Exec(k, NOTHING_READ))
    ensures var w', ref := Next(cfg, w, Exec(k, NOTHING_READ)), w.clients[k].ref;
      && w'.At(ref).HasStatus(RESOLVED) && w'.At(ref).records == w.At(ref).records && w'.now == w.now
      && k < |w'.clients| && w'.clients[k] == Client(ref, w.clients[k].todo[1..])
  {
    var todo := w.clients[k].todo;
    Survival.WriteAddsNothing(cfg, w.At(w.clients[k].ref), todo[0].stmt, NOTHING_READ, w.now);
    assert [] + todo[1..] == todo[1..];
  }

  lemma LoseAtOnce(cfg: Config, w: World, k: nat) returns (steps: seq<Step>)
    requires w.Ready(k) && Reopens(cfg, w.clients[k].todo[0].stmt, w.now)
    requires Readable(w.At(w.clients[k].ref).records)
    ensures IsRun(cfg, w, steps) && NoRetrigger(steps, w.clients[k].ref)
    ensures !End(cfg, w, steps).At(w.clients[k].ref).HasStatus(RESOLVED)
  {
    hide Readable, IsRun, End, Decide;
    match w.clients[k].todo[0].stmt
    case ReadOld => steps := LoseAtRead(cfg, w, k);
    case ReadRecords(_) => steps := LoseAtRecords(cfg, w, k);
    case Match(_, _) => steps := LoseAtMatch(cfg, w, k);
    case _ => steps := LoseAtWrite(cfg, w, k);
  }

  /** Left to itself, client k takes the transaction out of RESOLVED. */
  lemma {:induction false} LoseAlone(cfg: Config, w: World, k: nat) returns (steps: seq<Step>)
    requires k < |w.clients| && w.At(w.clients[k].ref).HasStatus(RESOLVED) && Readable(w.At(w.clients[k].ref).records)
    requires Direct(w.clients[k].todo) && HoldsReopening(cfg, w.clients[k].todo, w.now)
    ensures IsRun(cfg, w, steps) && NoRetrigger(steps, w.clients[k].ref)
    ensures !End(cfg, w, steps).At(w.clients[k].ref).HasStatus(RESOLVED)
    decreases |w.clients[k].todo|
  {
    HeadReopens(cfg, w.clients[k].todo, w.now);
    hide Readable, Direct, HoldsReopening, Soft, IsRun, End, CanStep, Next, Decide;
    if Reopens(cfg, w.clients[k].todo[0].stmt, w.now) {
      steps := LoseAtOnce(cfg, w, k);
    } else {
      SoftStep(cfg, w, k);
      var step := Exec(k, NOTHING_READ);
      var more := LoseAlone(cfg, Next(cfg, w, step), k);
      steps := FirstStep(cfg, w, step, more, w.clients[k].ref);
    }
  }

  // ---------------------------------------------------------------- records that can be matched

  lemma {:induction false} LatestOf(records: seq<RecordView>) returns (k: nat)
    requires records != []
    ensures k < |records| && forall r :: r in records ==> r.receivedAt <= records[k].receivedAt
  {
    if |records| == 1 {
      k := 0;
    } else {
      var j := LatestOf(records[1..]);
      k := if records[0].receivedAt <= records[j + 1].receivedAt then j + 1 else 0;
      forall r | r in records ensures r.receivedAt <= records[k].receivedAt {
        if r != records[0] { assert r in records[1..]; }
      }
    }
  }

  lemma {:induction false} SortedExists(records: seq<RecordView>) returns (rows: seq<RecordView>)
    ensures multiset(rows) == multiset(records) && SortedByArrival(rows)
    decreases |records|
  {
    if records == [] {
      rows := [];
    } else {
      var k := LatestOf(records);
      var before := SortedExists(records[..k] + records[k + 1..]);
      assert records == records[..k] + ([records[k]] + records[k + 1..]);
      rows := before + [records[k]];
      AddLatest(before, records, records[k]);
    }
  }

  lemma AddLatest(before: seq<RecordView>, records: seq<RecordView>, last: RecordView)
    requires SortedByArrival(before) && multiset(before + [last]) == multiset(records)
    requires forall r :: r in records ==> r.receivedAt <= last.receivedAt
    ensures SortedByArrival(before + [last])
  {
    forall i | 0 <= i < |before| ensures before[i].receivedAt <= last.receivedAt {
      assert before[i] in multiset(before + [last]);
      assert before[i] in records;
    }
  }

  /** A record without an amount, which always parses. */
  function Blank(source: Source, at: int): RecordView { RecordView(0, source, None, None, None, at) }

  /** One for each source, and one for source 0. */
  function Blanks(records: seq<RecordView>, at: int): (blanks: seq<RecordView>)
    ensures |blanks| == |records| + 1 && blanks[|records|] == Blank(0, at)
    ensures forall i :: 0 <= i < |records| ==> blanks[i] == Blank(records[i].source, at)
  {
    seq(|records|, i requires 0 <= i < |records| => Blank(records[i].source, at)) + [Blank(0, at)]
  }

  /** When every source has reported anew, the match gets past the parsing. */
  lemma BlanksReadable(records: seq<RecordView>, at: int)
    requires forall r :: r in records ==> r.receivedAt <= at
    ensures Readable(records + Blanks(records, at))
  {
    var sorted := SortedExists(records);
    var blanks := Blanks(records, at);
    var rows := sorted + blanks;
    forall r | r in sorted ensures r in records {
      assert r in multiset(sorted);
    }
    assert SortedByArrival(rows);
    var unique := ListingExists(rows);
    assert IsReading(Reading(rows, unique), records + blanks);
    forall i | 0 <= i < |unique| ensures Parses(unique[i]) { LatestIsBlank(records, sorted, blanks, at, unique[i]); }
  }

  lemma LatestIsBlank(records: seq<RecordView>, sorted: seq<RecordView>, blanks: seq<RecordView>, at: int, r: RecordView)
    requires blanks == Blanks(records, at) && (forall q :: q in sorted ==> q in records)
    requires IsLatest(r, sorted + blanks)
    ensures Parses(r)
  {
    var rows := sorted + blanks;
    var i :| 0 <= i < |rows| && rows[i] == r && forall j :: i < j < |rows| ==> rows[j].source != r.source;
    if r in records {
      var j :| 0 <= j < |records| && records[j] == r;
      assert blanks[j].source == r.source && rows[|sorted| + j] == blanks[j];
    }
    if i < |sorted| { assert false; }
  }

  lemma {:induction false} IngestAll(cfg: Config, w: World, ref: Ref, views: seq<RecordView>) returns (steps: seq<Step>)
    ensures IsRun(cfg, w, steps) && NoRetrigger(steps, ref)
    ensures var e := End(cfg, w, steps);
      e.At(ref) == w.At(ref).(records := w.At(ref).records + views) && e.now == w.now && w.clients <= e.clients
    decreases |views|
  {
    if views == [] {
      steps := [];
      assert w.At(ref).records + [] == w.At(ref).records;
    } else {
      var first := IngestSteps(cfg, w, ref, views[0]);
      var w1 := End(cfg, w, first);
      var rest := IngestAll(cfg, w1, ref, views[1..]);
      assert w.At(ref).records + views == w.At(ref).records + [views[0]] + views[1..];
      hide IsRun, End;
      RunsCompose(cfg, w, first, rest);
      CalmJoin(first, rest, ref);
      steps := first + rest;
    }
  }

  lemma MakeReadable(cfg: Config, w: World, ref: Ref) returns (steps: seq<Step>)
    ensures IsRun(cfg, w, steps) && NoRetrigger(steps, ref)
    ensures var c, e := w.At(ref), End(cfg, w, steps);
      && e.At(ref) == c.(records := e.At(ref).records) && Readable(e.At(ref).records)
      && e.now == w.now && w.clients <= e.clients
  {
    var records := w.At(ref).records;
    var at := 0;
    if records != [] {
      var k := LatestOf(records);
      at := records[k].receivedAt;
    }
    BlanksReadable(records, at);
    steps := IngestAll(cfg, w, ref, Blanks(records, at));
  }

  // ---------------------------------------------------------------- losing, whatever the reason

  /** From RESOLVED, some run without an external retrigger leads to another status. */
  ghost predicate CanBeLost(cfg: Config, w: World, ref: Ref) {
    exists steps: seq<Step> ::
      IsRun(cfg, w, steps) && NoRetrigger(steps, ref) && !End(cfg, w, steps).At(ref).HasStatus(RESOLVED)
  }

  lemma LostAfter(cfg: Config, w: World, first: seq<Step>, ref: Ref)
    requires IsRun(cfg, w, first) && NoRetrigger(first, ref) && CanBeLost(cfg, End(cfg, w, first), ref)
    ensures CanBeLost(cfg, w, ref)
  {
    var rest :| IsRun(cfg, End(cfg, w, first), rest) && NoRetrigger(rest, ref)
      && !End(cfg, End(cfg, w, first), rest).At(ref).HasStatus(RESOLVED);
    hide IsRun, End;
    RunsCompose(cfg, w, first, rest);
    CalmJoin(first, rest, ref);
    assert NoRetrigger(first + rest, ref);
  }

  lemma LostIfReopened(cfg: Config, w: World, ref: Ref, line: Line)
    requires AllShaped(w) && w.At(ref).HasStatus(RESOLVED) && Held(w, ref, line) && Reopens(cfg, line.stmt, w.now)
    ensures CanBeLost(cfg, w, ref)
  {
    hide Readable, Direct, Reopens, IsRun, End;
    var k :| 0 <= k < |w.clients| && w.clients[k].ref == ref && line in w.clients[k].todo;
    var first := MakeReadable(cfg, w, ref);
    var w1 := End(cfg, w, first);
    assert w1.clients[k] == w.clients[k];
    var rest := LoseAlone(cfg, w1, k);
    LostAfter(cfg, w, first, ref);
  }

  lemma LostIfQueued(cfg: Config, w: World, ref: Ref)
    requires w.At(ref).HasStatus(RESOLVED) && w.At(ref).Queued()
    ensures CanBeLost(cfg, w, ref)
  {
    hide IsRun, End, Calm;
    var steps := OpenEntryUnresolves(cfg, w, ref);
  }

  lemma LostAfterStep(cfg: Config, w: World, step: Step, ref: Ref)
    requires CanStep(w, step) && !step.Spawn? && CanBeLost(cfg, Next(cfg, w, step), ref)
    ensures CanBeLost(cfg, w, ref)
  {
    SingleStep(cfg, w, step);
    hide CanStep, Next, IsRun, End;
    LostAfter(cfg, w, [step], ref);
  }

  /** The client's next line is an enqueue, and the entry is not RESOLVED. */
  lemma LostIfEnqueued(cfg: Config, w: World, ref: Ref, k: nat)
    requires w.Ready(k) && w.clients[k].ref == ref && w.clients[k].todo[0].stmt.Enqueue?
    requires w.At(ref).HasStatus(RESOLVED) && !Closed(w.At(ref))
    ensures CanBeLost(cfg, w, ref)
  {
    hide CanBeLost, AfterExec;
    LostIfQueued(cfg, Next(cfg, w, Exec(k, NOTHING_READ)), ref);
    LostAfterStep(cfg, w, Exec(k, NOTHING_READ), ref);
  }

  /** One client is about to mark the entry EXHAUSTED, another to enqueue. */
  lemma LostIfMarked(cfg: Config, w: World, ref: Ref, j: nat, k: nat)
    requires w.Ready(j) && w.clients[j].ref == ref && w.clients[j].todo[0].stmt == Mark(EXHAUSTED)
    requires w.Ready(k) && w.clients[k].ref == ref && w.clients[k].todo[0].stmt.Enqueue?
    requires w.At(ref).HasStatus(RESOLVED) && Closed(w.At(ref))
    ensures CanBeLost(cfg, w, ref)
  {
    hide CanBeLost, AfterExec;
    LostIfEnqueued(cfg, Next(cfg, w, Exec(j, NOTHING_READ)), ref, k);
    LostAfterStep(cfg, w, Exec(j, NOTHING_READ), ref);
  }

  lemma LostIfExhausted(cfg: Config, w: World, ref: Ref, j: nat, k: nat)
    requires w.Ready(j) && w.clients[j].ref == ref && Exhausts(w.clients[j].todo[0].stmt)
    requires w.Ready(k) && w.clients[k].ref == ref && w.clients[k].todo[0].stmt.Enqueue?
    requires w.At(ref).HasStatus(RESOLVED) && Closed(w.At(ref))
    ensures CanBeLost(cfg, w, ref)
  {
    hide CanBeLost;
    if w.clients[j].todo[0].stmt.Mark? {
      LostIfMarked(cfg, w, ref, j, k);
    } else {
      var w' := Next(cfg, w, Exec(j, NOTHING_READ));
      assert w'.clients[j].todo[0].stmt == Mark(EXHAUSTED);
      LostIfMarked(cfg, w', ref, j, k);
      LostAfterStep(cfg, w, Exec(j, NOTHING_READ), ref);
    }
  }

  /** Lines that matter in front stand in front. */
  lemma InFront(w: World, ref: Ref, line: Line) returns (k: nat)
    requires AllShaped(w) && Held(w, ref, line) && Front(line.stmt)
    ensures w.Ready(k) && w.clients[k].ref == ref && w.clients[k].todo[0] == line
  {
    hide Direct, Front;
    k :| 0 <= k < |w.clients| && w.clients[k].ref == ref && line in w.clients[k].todo;
    var todo := w.clients[k].todo;
    forall i | 1 <= i < |todo| ensures !Front(todo[i].stmt) {
      assert todo[i] == todo[1..][i - 1];
    }
  }

  lemma LostIfEnqueuing(cfg: Config, w: World, ref: Ref)
    requires AllShaped(w) && w.At(ref).HasStatus(RESOLVED) && HoldsEnqueue(w, ref)
    requires !Closed(w.At(ref)) || exists line :: Held(w, ref, line) && Exhausts(line.stmt)
    ensures CanBeLost(cfg, w, ref)
  {
    hide CanBeLost, Held, AllShaped;
    var line :| Held(w, ref, line) && line.stmt.Enqueue?;
    var k := InFront(w, ref, line);
    if !Closed(w.At(ref)) {
      LostIfEnqueued(cfg, w, ref, k);
    } else {
      var other :| Held(w, ref, other) && Exhausts(other.stmt);
      var j := InFront(w, ref, other);
      LostIfExhausted(cfg, w, ref, j, k);
    }
  }

  // ---------------------------------------------------------------- exactly

  lemma StaysGuarded(cfg: Config, w: World, ref: Ref)
    requires AllShaped(w) && w.At(ref).HasStatus(RESOLVED) && StaysResolved(cfg, w, ref)
    ensures Guarded(cfg, HoldsEnqueue(w, ref), w, ref)
  {
    hide Direct, Reopens, Exhausts;
    forall k, line | 0 <= k < |w.clients| && w.clients[k].ref == ref && line in w.clients[k].todo
      ensures Keeps(cfg, HoldsEnqueue(w, ref), line.stmt, w.now)
    {
      assert Held(w, ref, line);
    }
  }

  /** Finality, exactly: a RESOLVED transaction stays RESOLVED in every interleaving without an
      external retrigger if and only if its queue entry is not open, no client has a line ahead that
      changes the status, and a client about to enqueue finds the entry RESOLVED for good. */
  lemma FinalIff(cfg: Config, w: World, ref: Ref)
    requires AllShaped(w) && w.At(ref).HasStatus(RESOLVED)
    ensures StaysResolved(cfg, w, ref) <==>
      forall steps: seq<Step> :: IsRun(cfg, w, steps) && NoRetrigger(steps, ref)
        ==> End(cfg, w, steps).At(ref).HasStatus(RESOLVED)
  {
    hide AllShaped, Guarded, Held, Reopens, Exhausts, HoldsEnqueue, Closed, NoRetrigger;
    if StaysResolved(cfg, w, ref) {
      StaysGuarded(cfg, w, ref);
      forall steps: seq<Step> | IsRun(cfg, w, steps) && NoRetrigger(steps, ref)
        ensures End(cfg, w, steps).At(ref).HasStatus(RESOLVED)
      {
        RunKeeps(cfg, HoldsEnqueue(w, ref), w, steps, ref);
      }
    } else if w.At(ref).Queued() {
      LostIfQueued(cfg, w, ref);
    } else if line :| Held(w, ref, line) && Reopens(cfg, line.stmt, w.now) {
      LostIfReopened(cfg, w, ref, line);
    } else {
      LostIfEnqueuing(cfg, w, ref);
    }
  }

  /** So in every state that any interleaving can reach. */
  lemma ReachedFinalIff(cfg: Config, now: int, before: seq<Step>, ref: Ref)
    requires IsRun(cfg, Interleaving.Empty(now), before)
    requires End(cfg, Interleaving.Empty(now), before).At(ref).HasStatus(RESOLVED)
    ensures var w := End(cfg, Interleaving.Empty(now), before);
      StaysResolved(cfg, w, ref) <==>
      forall steps: seq<Step> :: IsRun(cfg, w, steps) && NoRetrigger(steps, ref)
        ==> End(cfg, w, steps).At(ref).HasStatus(RESOLVED)
  {
    hide StaysResolved, Shaped, NoRetrigger;
    RunShaped(cfg, Interleaving.Empty(now), before);
    FinalIff(cfg, End(cfg, Interleaving.Empty(now), before), ref);
  }

  // ---------------------------------------------------------------- nothing in flight

  /** Lines that neither change the status nor open the entry of a RESOLVED transaction. */
  predicate Harmless(stmt: Stmt) {
    match stmt
    case Insert(_) => true
    case Poll => true
    case CheckAbsent => true
    case FetchDue(_) => true
    case CheckEnqueue(_, _) => true
    case CheckResolve(_) => true
    case InsertRow(_) => true
    case SetResolved => true
    case Mark(s) => s == DONE
    case Append(_) => true
    case Increment(_) => true
    case _ => false
  }

  /** No client is inside an engine or queue operation on `ref`. */
  ghost predicate Quiet(w: World, ref: Ref) { forall line :: Held(w, ref, line) ==> Harmless(line.stmt) }

  /** Then only the queue entry matters. */
  lemma FinalExactlyWhenNotQueued(cfg: Config, w: World, ref: Ref)
    requires w.At(ref).HasStatus(RESOLVED) && Quiet(w, ref)
    ensures !w.At(ref).Queued() <==>
      forall steps: seq<Step> :: IsRun(cfg, w, steps) && NoRetrigger(steps, ref)
        ==> End(cfg, w, steps).At(ref).HasStatus(RESOLVED)
  {
    hide NoRetrigger;
    if w.At(ref).Queued() {
      LostIfQueued(cfg, w, ref);
    } else {
      forall k, line | 0 <= k < |w.clients| && w.clients[k].ref == ref && line in w.clients[k].todo
        ensures Keeps(cfg, false, line.stmt, w.now)
      {
        assert Held(w, ref, line);
      }
      forall steps: seq<Step> | IsRun(cfg, w, steps) && NoRetrigger(steps, ref)
        ensures End(cfg, w, steps).At(ref).HasStatus(RESOLVED)
      {
        RunKeeps(cfg, false, w, steps, ref);
      }
    }
  }
}
