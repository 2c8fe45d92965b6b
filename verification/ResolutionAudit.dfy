/** An operation that sets a status and logs it, not overtaken, whatever fails in it: when the audit
    log still replays to the status. */
module ResolutionAudit {
  import opened Wrappers
  import opened Rules
  import opened Matcher
  import opened Cases
  import opened Transitions
  import opened Invariants
  import opened Statements
  import opened Refinement
  import opened Survival

  /** The step is one of client k, or of a client on another transaction. */
  ghost predicate LeavesAlone(w: World, step: Step, k: nat)
    requires k < |w.clients| && CanStep(w, step)
  {
    match step
    case Tick(_) => true
    case Spawn(_, _) => true
    case Exec(j, _) => j == k || w.clients[j].ref != w.clients[k].ref
    case Fail(j, _) => j == k || w.clients[j].ref != w.clients[k].ref
    case Crash(j) => j == k || w.clients[j].ref != w.clients[k].ref
    case Detach(j) => j == k || w.clients[j].ref != w.clients[k].ref
  }

  /** A run in which nobody else gets to the transaction of client k. */
  ghost predicate NotOvertaken(cfg: Config, w: World, steps: seq<Step>, k: nat)
    decreases |steps|
  {
    && k < |w.clients|
    && (steps == [] ||
      (CanStep(w, steps[0]) && LeavesAlone(w, steps[0], k) && NotOvertaken(cfg, Next(cfg, w, steps[0]), steps[1..], k)))
  }

  /** Client k's statement takes effect in this step, whatever the client is told. */
  ghost predicate Takes(w: World, step: Step, k: nat, stmt: Stmt)
    requires CanStep(w, step)
  {
    match step
    case Exec(j, _) => j == k && w.clients[j].todo[0].stmt == stmt
    case Fail(j, applied) => j == k && applied && w.clients[j].todo[0].stmt == stmt
    case _ => false
  }

  ghost predicate Took(cfg: Config, w: World, steps: seq<Step>, k: nat, stmt: Stmt)
    requires IsRun(cfg, w, steps)
    decreases |steps|
  {
    steps != [] && (Takes(w, steps[0], k, stmt) || Took(cfg, Next(cfg, w, steps[0]), steps[1..], k, stmt))
  }

  lemma {:induction false} NotOvertakenRuns(cfg: Config, w: World, steps: seq<Step>, k: nat)
    requires NotOvertaken(cfg, w, steps, k)
    ensures IsRun(cfg, w, steps)
    decreases |steps|
  {
    if steps != [] { NotOvertakenRuns(cfg, Next(cfg, w, steps[0]), steps[1..], k); }
  }

  /** A step of somebody else. */
  lemma OthersMove(cfg: Config, w: World, step: Step, k: nat)
    requires k < |w.clients| && CanStep(w, step) && LeavesAlone(w, step, k)
    requires step.Tick? || step.Spawn? || step.k != k
    ensures var w' := Next(cfg, w, step);
      k < |w'.clients| && w'.clients[k] == w.clients[k] && w'.At(w.clients[k].ref) == w.At(w.clients[k].ref)
    ensures forall stmt :: !Takes(w, step, k, stmt)
  {
    hide Effect, AfterExec, AfterFail, AfterFailure, Orphaned, Program;
  }

  /** What client k's own step does at a write, or its crash anywhere, when nobody waits for a reply. */
  lemma OwnMove(cfg: Config, w: World, step: Step, k: nat)
    requires k < |w.clients| && CanStep(w, step) && !step.Tick? && !step.Spawn? && step.k == k
    requires AfterFailure(w.clients[k].todo) == [] && (step.Crash? || IsWrite(w.clients[k].todo[0].stmt))
    ensures var w', ref, todo := Next(cfg, w, step), w.clients[k].ref, w.clients[k].todo;
      && todo != [] && k < |w'.clients| && w'.clients[k].ref == ref
      && (w'.clients[k].todo == todo[1..] || w'.clients[k].todo == [])
      && w'.At(ref) == (if Takes(w, step, k, todo[0].stmt) then Effect(cfg, w.At(ref), todo[0].stmt, w.now)
                        else w.At(ref))
      && (w'.clients[k].todo == [] || todo[0].Try? || Takes(w, step, k, todo[0].stmt))
      && (forall stmt :: Takes(w, step, k, stmt) ==> stmt == todo[0].stmt)
  {
    hide Effect, Adds, AfterFailure, IsWrite;
    var c, todo := w.At(w.clients[k].ref), w.clients[k].todo;
    if step.Exec? {
      WriteAddsNothing(cfg, c, todo[0].stmt, step.rd, w.now);
      assert [] + todo[1..] == todo[1..];
    }
  }

  predicate NoReply(todo: Todo) { forall line :: line in todo ==> !line.stmt.FetchReply? }

  lemma FailureWithoutReply(todo: Todo)
    requires NoReply(todo)
    ensures AfterFailure(todo) == []
  {}

  lemma FailureOfOnlyWrites(todo: Todo)
    requires OnlyWrites(todo)
    ensures AfterFailure(todo) == []
  {}

  /** Client k does not get to read: its own steps are writes, or its crash. */
  ghost predicate Writing(cfg: Config, w: World, steps: seq<Step>, k: nat)
    decreases |steps|
  {
    k < |w.clients| && (steps == [] || (
      && CanStep(w, steps[0])
      && (steps[0].Tick? || steps[0].Spawn? || steps[0].k != k || steps[0].Crash? || steps[0].Detach?
          || IsWrite(w.clients[k].todo[0].stmt))
      && Writing(cfg, Next(cfg, w, steps[0]), steps[1..], k)))
  }

  lemma {:induction false} WritesWriting(cfg: Config, w: World, steps: seq<Step>, k: nat)
    requires NotOvertaken(cfg, w, steps, k) && OnlyWrites(w.clients[k].todo)
    ensures Writing(cfg, w, steps, k)
    decreases |steps|
  {
    if steps != [] {
      var todo := w.clients[k].todo;
      if steps[0].Tick? || steps[0].Spawn? || steps[0].k != k {
        OthersMove(cfg, w, steps[0], k);
      } else {
        FailureOfOnlyWrites(todo);
        assert todo[0] in todo;
        OwnMove(cfg, w, steps[0], k);
      }
      hide Next, CanStep, LeavesAlone;
      WritesWriting(cfg, Next(cfg, w, steps[0]), steps[1..], k);
    }
  }

  lemma {:induction false} NothingTaken(cfg: Config, w: World, steps: seq<Step>, k: nat, stmt: Stmt)
    requires NotOvertaken(cfg, w, steps, k) && IsRun(cfg, w, steps) && w.clients[k].todo == []
    ensures !Took(cfg, w, steps, k, stmt)
    ensures End(cfg, w, steps).At(w.clients[k].ref) == w.At(w.clients[k].ref)
    decreases |steps|
  {
    if steps != [] {
      OthersMove(cfg, w, steps[0], k);
      hide Next, CanStep, LeavesAlone;
      NothingTaken(cfg, Next(cfg, w, steps[0]), steps[1..], k, stmt);
    }
  }

  // ---------------------------------------------------------------- a status and its audit line

  /** A write that touches neither the status nor the log. */
  predicate Neutral(stmt: Stmt) {
    IsWrite(stmt) && !stmt.UpsertState? && !stmt.Reset? && !stmt.SetResolved? && !stmt.Append?
  }

  /** Up to its first read, what is left of the program is neutral. */
  predicate Leaves(todo: Todo) {
    NoReply(todo) && (todo == [] || !IsWrite(todo[0].stmt) || (Neutral(todo[0].stmt) && Leaves(todo[1..])))
  }

  /** What is left of the program logs this entry, once, and does not touch the status. */
  predicate Tells(todo: Todo, e: AuditEntry) {
    todo != [] &&
    if todo[0].stmt == Append(e) then Leaves(todo[1..]) else Neutral(todo[0].stmt) && Tells(todo[1..], e)
  }

  /** It sets the status, once, and logs the entry after that. */
  predicate Sets(todo: Todo, setter: Stmt, e: AuditEntry) {
    todo != [] &&
    if todo[0].stmt == setter then todo[0].Must? && Tells(todo[1..], e)
    else Neutral(todo[0].stmt) && Sets(todo[1..], setter, e)
  }

  predicate Setter(stmt: Stmt) { stmt.UpsertState? || stmt.SetResolved? || stmt.Reset? }

  function StatusSet(stmt: Stmt): Status
    requires Setter(stmt)
  {
    if stmt.UpsertState? then stmt.o.Status() else if stmt.SetResolved? then RESOLVED else PENDING
  }

  predicate SameStatus(c: Case, d: Case) {
    (c.row.None? && d.row.None?) || (c.row.Some? && d.row.Some? && c.row.value.status == d.row.value.status)
  }

  lemma {:induction false} TellsNoReply(todo: Todo, e: AuditEntry)
    requires Tells(todo, e)
    ensures NoReply(todo)
  {
    if todo[0].stmt != Append(e) { TellsNoReply(todo[1..], e); }
  }

  lemma {:induction false} SetsNoReply(todo: Todo, setter: Stmt, e: AuditEntry)
    requires Sets(todo, setter, e) && Setter(setter)
    ensures NoReply(todo)
  {
    if todo[0].stmt == setter { TellsNoReply(todo[1..], e); } else { SetsNoReply(todo[1..], setter, e); }
  }

  lemma NeutralEffect(cfg: Config, c: Case, stmt: Stmt, now: int)
    requires Neutral(stmt)
    ensures var d := Effect(cfg, c, stmt, now); SameStatus(c, d) && d.log == c.log
  {}

  lemma {:induction false} NeutralRun(cfg: Config, w: World, steps: seq<Step>, k: nat, stmt: Stmt)
    requires NotOvertaken(cfg, w, steps, k) && Writing(cfg, w, steps, k) && IsRun(cfg, w, steps)
    requires Leaves(w.clients[k].todo) && IsWrite(stmt) && !Neutral(stmt)
    ensures var c, d := w.At(w.clients[k].ref), End(cfg, w, steps).At(w.clients[k].ref);
      SameStatus(c, d) && d.log == c.log && !Took(cfg, w, steps, k, stmt)
    decreases |steps|
  {
    hide Next, CanStep, LeavesAlone, Takes, Neutral, Effect, IsWrite, NoReply;
    if steps != [] {
      var step, todo := steps[0], w.clients[k].todo;
      if step.Tick? || step.Spawn? || step.k != k {
        OthersMove(cfg, w, step, k);
      } else {
        OwnNeutral(cfg, w, step, k, stmt);
      }
      NeutralRun(cfg, Next(cfg, w, step), steps[1..], k, stmt);
    }
  }

  lemma OwnNeutral(cfg: Config, w: World, step: Step, k: nat, stmt: Stmt)
    requires k < |w.clients| && CanStep(w, step) && !step.Tick? && !step.Spawn? && step.k == k
    requires Leaves(w.clients[k].todo) && IsWrite(stmt) && !Neutral(stmt)
    requires step.Crash? || step.Detach? || IsWrite(w.clients[k].todo[0].stmt)
    ensures var w', ref := Next(cfg, w, step), w.clients[k].ref;
      && k < |w'.clients| && w'.clients[k].ref == ref && Leaves(w'.clients[k].todo)
      && SameStatus(w.At(ref), w'.At(ref)) && w'.At(ref).log == w.At(ref).log && !Takes(w, step, k, stmt)
  {
    var todo := w.clients[k].todo;
    FailureWithoutReply(todo);
    hide Next, Takes, Effect, IsWrite, NoReply;
    OwnMove(cfg, w, step, k);
    if Neutral(todo[0].stmt) { NeutralEffect(cfg, w.At(w.clients[k].ref), todo[0].stmt, w.now); }
    assert Leaves([]) by { NothingLeft(); }
  }

  lemma NothingLeft()
    ensures Leaves([])
  {}

  lemma AppendEffect(cfg: Config, c: Case, e: AuditEntry, now: int)
    ensures Effect(cfg, c, Append(e), now) == c.(log := c.log + [e])
  {}

  lemma OwnTells(cfg: Config, w: World, step: Step, k: nat, setter: Stmt, e: AuditEntry)
    requires k < |w.clients| && CanStep(w, step) && !step.Tick? && !step.Spawn? && step.k == k
    requires Tells(w.clients[k].todo, e) && Setter(setter)
    requires step.Crash? || step.Detach? || IsWrite(w.clients[k].todo[0].stmt)
    ensures var w', ref, told := Next(cfg, w, step), w.clients[k].ref, Takes(w, step, k, Append(e));
      && k < |w'.clients| && w'.clients[k].ref == ref
      && (Leaves(w'.clients[k].todo) || (!told && Tells(w'.clients[k].todo, e)))
      && SameStatus(w.At(ref), w'.At(ref)) && !Takes(w, step, k, setter)
      && w'.At(ref).log == (if told then w.At(ref).log + [e] else w.At(ref).log)
  {
    var todo, c := w.clients[k].todo, w.At(w.clients[k].ref);
    TellsNoReply(todo, e);
    FailureWithoutReply(todo);
    hide Next, Takes, Effect, IsWrite, NoReply;
    OwnMove(cfg, w, step, k);
    AppendEffect(cfg, c, e, w.now);
    if todo[0].stmt != Append(e) { NeutralEffect(cfg, c, todo[0].stmt, w.now); }
    NothingLeft();
  }

  lemma {:induction false} TellRun(cfg: Config, w: World, steps: seq<Step>, k: nat, setter: Stmt, e: AuditEntry)
    requires NotOvertaken(cfg, w, steps, k) && Writing(cfg, w, steps, k) && IsRun(cfg, w, steps)
    requires Tells(w.clients[k].todo, e) && Setter(setter)
    ensures var c, d := w.At(w.clients[k].ref), End(cfg, w, steps).At(w.clients[k].ref);
      && SameStatus(c, d) && d.log == (if Took(cfg, w, steps, k, Append(e)) then c.log + [e] else c.log)
      && !Took(cfg, w, steps, k, setter)
    decreases |steps|
  {
    hide Next, CanStep, LeavesAlone, Takes, Effect, Tells, Leaves, IsWrite;
    if steps != [] {
      var step, w' := steps[0], Next(cfg, w, steps[0]);
      if step.Tick? || step.Spawn? || step.k != k {
        OthersMove(cfg, w, step, k);
      } else {
        OwnTells(cfg, w, step, k, setter, e);
      }
      if Leaves(w'.clients[k].todo) {
        Telling(setter, e);
        NeutralRun(cfg, w', steps[1..], k, setter);
        NeutralRun(cfg, w', steps[1..], k, Append(e));
      } else {
        TellRun(cfg, w', steps[1..], k, setter, e);
      }
    }
  }

  lemma Telling(setter: Stmt, e: AuditEntry)
    requires Setter(setter)
    ensures IsWrite(setter) && !Neutral(setter) && IsWrite(Append(e)) && !Neutral(Append(e))
  {}

  /** What a status and its audit line make of the replay, when they take effect or not. */
  ghost predicate ReplaysAsTaken(c: Case, d: Case, s: Status, done: bool, told: bool) {
    && (Replays(d) <==> if done then told || LastStatus(c.log) == Some(s) else Replays(c))
    && (done ==> d.HasStatus(s)) && (told ==> done)
  }

  lemma SetEffect(cfg: Config, c: Case, setter: Stmt, now: int)
    requires Setter(setter) && (!setter.UpsertState? ==> c.row.Some?)
    ensures var d := Effect(cfg, c, setter, now); d.HasStatus(StatusSet(setter)) && d.log == c.log
  {}

  lemma OwnSets(cfg: Config, w: World, step: Step, k: nat, setter: Stmt, e: AuditEntry)
    requires k < |w.clients| && CanStep(w, step) && !step.Tick? && !step.Spawn? && step.k == k
    requires Sets(w.clients[k].todo, setter, e) && Setter(setter)
    requires !setter.UpsertState? ==> w.At(w.clients[k].ref).row.Some?
    requires step.Crash? || step.Detach? || IsWrite(w.clients[k].todo[0].stmt)
    ensures var w', ref, done := Next(cfg, w, step), w.clients[k].ref, Takes(w, step, k, setter);
      && k < |w'.clients| && w'.clients[k].ref == ref && w'.At(ref).log == w.At(ref).log
      && (Leaves(w'.clients[k].todo) || if done then Tells(w'.clients[k].todo, e) else Sets(w'.clients[k].todo, setter, e))
      && (if done then w'.At(ref).HasStatus(StatusSet(setter)) else SameStatus(w.At(ref), w'.At(ref)))
      && !Takes(w, step, k, Append(e))
  {
    var todo, c := w.clients[k].todo, w.At(w.clients[k].ref);
    SetsNoReply(todo, setter, e);
    FailureWithoutReply(todo);
    hide Next, Takes, Effect, IsWrite, NoReply, StatusSet;
    OwnMove(cfg, w, step, k);
    if todo[0].stmt == setter { SetEffect(cfg, c, setter, w.now); } else { NeutralEffect(cfg, c, todo[0].stmt, w.now); }
    NothingLeft();
  }

  /** A program that sets a status and logs it, run by client k and not overtaken, with statements of it
      failing, taking effect unnoticed, or the client crashing anywhere: when the log replays. */
  lemma {:induction false} SetRun(cfg: Config, w: World, steps: seq<Step>, k: nat, setter: Stmt, e: AuditEntry)
    requires NotOvertaken(cfg, w, steps, k) && Writing(cfg, w, steps, k) && IsRun(cfg, w, steps)
    requires Sets(w.clients[k].todo, setter, e)
    requires Setter(setter) && e.newStatus == StatusSet(setter) && e.event != RETRY_ENGINE_ERROR
    requires !setter.UpsertState? ==> w.At(w.clients[k].ref).row.Some?
    ensures ReplaysAsTaken(w.At(w.clients[k].ref), End(cfg, w, steps).At(w.clients[k].ref), StatusSet(setter),
                           Took(cfg, w, steps, k, setter), Took(cfg, w, steps, k, Append(e)))
    decreases |steps|
  {
    hide Next, CanStep, LeavesAlone, Takes, Effect, StatusSet, Tells, Sets, Leaves, IsWrite;
    if steps != [] {
      var step, w' := steps[0], Next(cfg, w, steps[0]);
      LastStatusAppend(w.At(w.clients[k].ref).log, e);
      if step.Tick? || step.Spawn? || step.k != k {
        OthersMove(cfg, w, step, k);
        SetRun(cfg, w', steps[1..], k, setter, e);
      } else {
        OwnSets(cfg, w, step, k, setter, e);
        if Leaves(w'.clients[k].todo) {
          Telling(setter, e);
          NeutralRun(cfg, w', steps[1..], k, setter);
          NeutralRun(cfg, w', steps[1..], k, Append(e));
        } else if Takes(w, step, k, setter) {
          TellRun(cfg, w', steps[1..], k, setter, e);
        } else {
          SetRun(cfg, w', steps[1..], k, setter, e);
        }
      }
    }
  }

  // ---------------------------------------------------------------- resolutions

  function AuditEntryOf(r: ResolutionRow, prior: OldStatus): AuditEntry {
    AuditEntry(if r.kind == MANUAL then MANUAL_RESOLUTION else AUTO_RESOLUTION, prior, RESOLVED)
  }

  lemma ResolveSets(r: ResolutionRow, prior: OldStatus)
    ensures Sets(ResolveLines(r, prior), SetResolved, AuditEntryOf(r, prior)) && OnlyWrites(ResolveLines(r, prior))
  {
    var lines, e := ResolveLines(r, prior), AuditEntryOf(r, prior);
    assert lines[1..][1..] == lines[2..] && lines[2..][1..] == lines[3..] && lines[3..][1..] == [];
    assert Tells(lines[3..], e);
    assert Tells(lines[2..], e);
  }

  lemma ResolutionTells(r: ResolutionRow, prior: OldStatus)
    ensures AuditEntryOf(r, prior).newStatus == RESOLVED && AuditEntryOf(r, prior).event != RETRY_ENGINE_ERROR
  {}

  /** A resolution from its first line on, run by client k and not overtaken, with statements of it
      failing, taking effect unnoticed, or the client crashing anywhere: the log still replays to the
      status if and only if its audit line took effect, or SetResolved did not, or the transaction
      was RESOLVED before. */
  lemma {:induction false} ResolutionReplaysIff(cfg: Config, w: World, steps: seq<Step>, k: nat, r: ResolutionRow)
    requires NotOvertaken(cfg, w, steps, k) && IsRun(cfg, w, steps)
    requires w.clients[k].todo == Program(ResolveAs(r)) && Replays(w.At(w.clients[k].ref))
    ensures var c, d := w.At(w.clients[k].ref), End(cfg, w, steps).At(w.clients[k].ref);
      var line := Append(AuditEntryOf(r, StatusBefore(c)));
      var done, told := Took(cfg, w, steps, k, SetResolved), Took(cfg, w, steps, k, line);
      && (Replays(d) <==> (done ==> c.HasStatus(RESOLVED) || told))
      && (done ==> d.HasStatus(RESOLVED))
    decreases |steps|
  {
    hide CanStep, LeavesAlone, Effect, ResolveLines, AuditEntryOf, AfterFail, Sets;
    if steps != [] {
      var ref, step := w.clients[k].ref, steps[0];
      var c, w' := w.At(ref), Next(cfg, w, step);
      var e := AuditEntryOf(r, StatusBefore(c));
      if step.Tick? || step.Spawn? || step.k != k {
        OthersMove(cfg, w, step, k);
        ResolutionReplaysIff(cfg, w', steps[1..], k, r);
      } else {
        CheckMove(cfg, w, step, k, r);
        if w'.clients[k].todo == [] {
          NothingTaken(cfg, w', steps[1..], k, SetResolved);
          NothingTaken(cfg, w', steps[1..], k, Append(e));
        } else {
          ResolveSets(r, StatusBefore(c));
          WritesWriting(cfg, w', steps[1..], k);
          ResolutionTells(r, StatusBefore(c));
          SetRun(cfg, w', steps[1..], k, SetResolved, e);
        }
      }
    }
  }

  /** The status read of a resolution: it leads to the writes, or the client is through. */
  lemma CheckMove(cfg: Config, w: World, step: Step, k: nat, r: ResolutionRow)
    requires k < |w.clients| && CanStep(w, step) && !step.Tick? && !step.Spawn? && step.k == k
    requires w.clients[k].todo == [Must(CheckResolve(r))]
    ensures var w', ref := Next(cfg, w, step), w.clients[k].ref;
      && k < |w'.clients| && w'.clients[k].ref == ref && w'.At(ref) == w.At(ref)
      && !Takes(w, step, k, SetResolved) && !Takes(w, step, k, Append(AuditEntryOf(r, StatusBefore(w.At(ref)))))
      && (w'.clients[k].todo == [] ||
          (Resolvable(w.At(ref)) && w'.clients[k].todo == ResolveLines(r, StatusBefore(w.At(ref)))))
  {
    var lines := ResolveLines(r, StatusBefore(w.At(w.clients[k].ref)));
    var none: Todo := [];
    assert [Must(CheckResolve(r))][1..] == none && AfterFailure([Must(CheckResolve(r))]) == none;
    assert lines + none == lines && none + none == none;
  }

  lemma AutoApplySets(chosen: Source)
    ensures Sets(AutoApplyLines(chosen), SetResolved, AuditEntry(AUTO_RESOLUTION, Was(MISMATCHED), RESOLVED))
    ensures OnlyWrites(AutoApplyLines(chosen))
  {
    var lines, e := AutoApplyLines(chosen), AuditEntry(AUTO_RESOLUTION, Was(MISMATCHED), RESOLVED);
    assert lines[1..][1..] == lines[2..] && lines[2..][1..] == lines[3..] && lines[3..][1..] == [];
    assert Leaves(lines[3..]);
    assert Tells(lines[2..], e);
  }

  /** The same for the retry worker's resolution after exhaustion. */
  lemma AutoApplyReplaysIff(cfg: Config, w: World, steps: seq<Step>, k: nat, chosen: Source)
    requires NotOvertaken(cfg, w, steps, k) && IsRun(cfg, w, steps)
    requires w.clients[k].todo == AutoApplyLines(chosen)
    requires w.At(w.clients[k].ref).row.Some? && Replays(w.At(w.clients[k].ref))
    ensures var c, d := w.At(w.clients[k].ref), End(cfg, w, steps).At(w.clients[k].ref);
      var line := Append(AuditEntry(AUTO_RESOLUTION, Was(MISMATCHED), RESOLVED));
      var done, told := Took(cfg, w, steps, k, SetResolved), Took(cfg, w, steps, k, line);
      Replays(d) <==> (done ==> c.HasStatus(RESOLVED) || told)
  {
    AutoApplySets(chosen);
    WritesWriting(cfg, w, steps, k);
    hide Sets, AutoApplyLines, IsRun, End;
    SetRun(cfg, w, steps, k, SetResolved, AuditEntry(AUTO_RESOLUTION, Was(MISMATCHED), RESOLVED));
  }

  // ---------------------------------------------------------------- matches

  lemma {:induction false} DetailsTell(results: seq<SourceResult>, e: AuditEntry)
    ensures Tells(DetailLines(results) + [Must(Append(e))], e)
    decreases |results|
  {
    var todo := DetailLines(results) + [Must(Append(e))];
    if results == [] {
      assert todo == [Must(Append(e))] && todo[1..] == [];
    } else {
      assert todo[1..] == DetailLines(results[1..]) + [Must(Append(e))];
      DetailsTell(results[1..], e);
    }
  }

  lemma MatchSets(o: Outcome, n: nat, prior: OldStatus)
    ensures Sets(WriteLines(o, n, prior), UpsertState(o, n), AuditEntry(MATCH_ATTEMPT, prior, o.Status()))
    ensures OnlyWrites(WriteLines(o, n, prior))
  {
    DetailsTell(o.Results(), AuditEntry(MATCH_ATTEMPT, prior, o.Status()));
    var last := Must(Append(AuditEntry(MATCH_ATTEMPT, prior, o.Status())));
    assert WriteLines(o, n, prior)[1..] == DetailLines(o.Results()) + [last];
  }

  /** The writes of a match, not overtaken: the log replays to the status if and only if the audit line
      took effect or the log told that status before, or, when the state row did not take effect, the
      log replayed before. */
  lemma MatchReplaysIff(cfg: Config, w: World, steps: seq<Step>, k: nat, o: Outcome, n: nat, prior: OldStatus)
    requires NotOvertaken(cfg, w, steps, k) && IsRun(cfg, w, steps)
    requires w.clients[k].todo == WriteLines(o, n, prior)
    ensures var c, d := w.At(w.clients[k].ref), End(cfg, w, steps).At(w.clients[k].ref);
      var done, told := Took(cfg, w, steps, k, UpsertState(o, n)),
                        Took(cfg, w, steps, k, Append(AuditEntry(MATCH_ATTEMPT, prior, o.Status())));
      Replays(d) <==> if done then told || LastStatus(c.log) == Some(o.Status()) else Replays(c)
  {
    MatchSets(o, n, prior);
    WritesWriting(cfg, w, steps, k);
    hide Sets, WriteLines, IsRun, End, Replays;
    SetRun(cfg, w, steps, k, UpsertState(o, n), AuditEntry(MATCH_ATTEMPT, prior, o.Status()));
  }

  // ---------------------------------------------------------------- retriggers

  lemma RetriggerSets()
    ensures Sets(RetriggerLines(), Reset, AuditEntry(RETRIGGER, Null, PENDING))
  {
    var lines := RetriggerLines();
    assert lines[1..][1..] == [lines[2]];
  }

  /** The reset of a retrigger and its audit line, up to the read of the match that follows, which has
      its own condition above. */
  lemma ResetReplaysIff(cfg: Config, w: World, steps: seq<Step>, k: nat)
    requires NotOvertaken(cfg, w, steps, k) && Writing(cfg, w, steps, k) && IsRun(cfg, w, steps)
    requires w.clients[k].todo == RetriggerLines() && w.At(w.clients[k].ref).row.Some?
    ensures var c, d := w.At(w.clients[k].ref), End(cfg, w, steps).At(w.clients[k].ref);
      var done, told := Took(cfg, w, steps, k, Reset),
                        Took(cfg, w, steps, k, Append(AuditEntry(RETRIGGER, Null, PENDING)));
      Replays(d) <==> if done then told || LastStatus(c.log) == Some(PENDING) else Replays(c)
  {
    RetriggerSets();
    hide Sets, RetriggerLines, IsRun, End, Replays;
    SetRun(cfg, w, steps, k, Reset, AuditEntry(RETRIGGER, Null, PENDING));
  }
}
