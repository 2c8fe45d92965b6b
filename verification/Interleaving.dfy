/** What survives any interleaving of any number of clients, failed statements and crashes. */
module Interleaving {
  import opened Wrappers
  import opened Rules
  import opened Matcher
  import opened MatcherLaws
  import opened Cases
  import opened Transitions
  import opened Invariants
  import opened Statements

  // ---------------------------------------------------------------- invariants of the tables

  ghost predicate ShownBy(d: DetailRow, s: Source, records: seq<RecordView>) {
    exists r :: r in records && r.source == s && Shows(d, r)
  }

  /** Every detail row shows a stored record of its own source. */
  ghost predicate Genuine(c: Case) {
    forall s :: s in c.details ==> ShownBy(c.details[s], s, c.records)
  }

  ghost predicate Justified(cfg: Config, c: Case, now: int) {
    ShowsDecision(c) ==> Decided(c.records, cfg.rules, now)
  }

  ghost predicate CaseOk(cfg: Config, c: Case, now: int) {
    Backed(c) && Genuine(c) && Justified(cfg, c, now)
  }

  // ---------------------------------------------------------------- invariants of the programs

  /** Before every SetResolved the program writes the resolution record, unless there is one. */
  predicate Covered(todo: Todo, has: bool) {
    if todo == [] then true
    else if todo[0].stmt.SetResolved? then has && Covered(todo[1..], has)
    else Covered(todo[1..], has || (todo[0].Must? && todo[0].stmt.InsertRow?))
  }

  ghost predicate LineOk(cfg: Config, c: Case, stmt: Stmt, now: int) {
    match stmt
    case Match(_, rd) => (forall r :: r in rd.rows ==> r in c.records) && IsListing(rd.unique, rd.rows)
    case UpsertState(o, _) => o.Pending? || Decided(c.records, cfg.rules, now)
    case UpsertDetail(sr) => ShownBy(ToDetail(sr), sr.source, c.records)
    case Append(e) => DecidedEntry(e) ==> Decided(c.records, cfg.rules, now)
    case SetResolved => Decided(c.records, cfg.rules, now)
    case Enqueue(_, _) => Decided(c.records, cfg.rules, now)
    case FetchReply(_, _) => Decided(c.records, cfg.rules, now)
    case React(_, _, _) => Decided(c.records, cfg.rules, now)
    case _ => true
  }

  ghost predicate LinesOk(cfg: Config, c: Case, todo: Todo, now: int) {
    forall line :: line in todo ==> LineOk(cfg, c, line.stmt, now)
  }

  ghost predicate ClientOk(cfg: Config, w: World, client: Client) {
    && Covered(client.todo, w.At(client.ref).resolution.Some?)
    && LinesOk(cfg, w.At(client.ref), client.todo, w.now)
  }

  ghost predicate CaseOkAt(cfg: Config, w: World, ref: Ref) { CaseOk(cfg, w.At(ref), w.now) }

  ghost predicate WorldOk(cfg: Config, w: World) {
    && (forall ref :: CaseOkAt(cfg, w, ref))
    && (forall k :: 0 <= k < |w.clients| ==> ClientOk(cfg, w, w.clients[k]))
  }

  // ---------------------------------------------------------------- monotonicity

  /** Statements only add to these parts of a case. */
  predicate Grows(c: Case, d: Case) {
    && c.records <= d.records && c.log <= d.log
    && (c.resolution.Some? ==> d.resolution.Some?) && (c.row.Some? ==> d.row.Some?)
    && (forall s :: s in c.details ==> s in d.details)
  }

  lemma EffectGrows(cfg: Config, c: Case, stmt: Stmt, now: int)
    ensures Grows(c, Effect(cfg, c, stmt, now))
  {}

  lemma LineStaysOk(cfg: Config, c: Case, d: Case, stmt: Stmt, now: int, later: int)
    requires LineOk(cfg, c, stmt, now) && c.records <= d.records && now <= later
    ensures LineOk(cfg, d, stmt, later)
  {
    assert forall r :: r in c.records ==> r in d.records;
    if Decided(c.records, cfg.rules, now) { DecidedMonotone(c.records, d.records, cfg.rules, now, later); }
  }

  lemma LinesStayOk(cfg: Config, c: Case, d: Case, todo: Todo, now: int, later: int)
    requires LinesOk(cfg, c, todo, now) && c.records <= d.records && now <= later
    ensures LinesOk(cfg, d, todo, later)
  {
    forall line | line in todo ensures LineOk(cfg, d, line.stmt, later) {
      LineStaysOk(cfg, c, d, line.stmt, now, later);
    }
  }

  lemma {:induction false} CoveredMonotone(todo: Todo, has: bool, more: bool)
    requires Covered(todo, has) && (has ==> more)
    ensures Covered(todo, more)
  {
    if todo != [] {
      var wrote := todo[0].Must? && todo[0].stmt.InsertRow?;
      CoveredMonotone(todo[1..], if todo[0].stmt.SetResolved? then has else has || wrote,
                      if todo[0].stmt.SetResolved? then more else more || wrote);
    }
  }

  lemma CoveredJoin(a: Todo, b: Todo, has: bool)
    requires Covered(a, false) && Covered(b, has)
    ensures Covered(a + b, has)
  {
    CoveredFrom(a, b, false, has);
  }

  lemma {:induction false} CoveredFrom(a: Todo, b: Todo, mine: bool, has: bool)
    requires Covered(a, mine) && Covered(b, has)
    ensures Covered(a + b, mine || has)
  {
    if a == [] {
      assert a + b == b;
      CoveredMonotone(b, has, mine || has);
    } else {
      assert (a + b)[1..] == a[1..] + b;
      if a[0].stmt.SetResolved? {
        CoveredFrom(a[1..], b, mine, has);
      } else {
        CoveredFrom(a[1..], b, mine || (a[0].Must? && a[0].stmt.InsertRow?), has);
      }
    }
  }

  lemma {:induction false} CoveredPrefix(todo: Todo, prefix: Todo, has: bool)
    requires Covered(todo, has) && prefix <= todo
    ensures Covered(prefix, has)
  {
    if prefix != [] {
      CoveredPrefix(todo[1..], prefix[1..],
                    if todo[0].stmt.SetResolved? then has else has || (todo[0].Must? && todo[0].stmt.InsertRow?));
    }
  }

  predicate NeverResolves(todo: Todo) { forall line :: line in todo ==> !line.stmt.SetResolved? }

  lemma {:induction false} CoveredWithoutResolve(todo: Todo, has: bool)
    requires NeverResolves(todo)
    ensures Covered(todo, has)
  {
    if todo != [] {
      assert todo[0] in todo;
      CoveredWithoutResolve(todo[1..], has || (todo[0].Must? && todo[0].stmt.InsertRow?));
    }
  }

  // ---------------------------------------------------------------- what statements add

  lemma DetailLinesOk(cfg: Config, c: Case, rd: Reading, o: Outcome, now: int, line: Line)
    requires IsListing(rd.unique, rd.rows) && forall r :: r in rd.rows ==> r in c.records
    requires ResultsOf(o, rd.unique) && line in DetailLines(o.results)
    ensures LineOk(cfg, c, line.stmt, now) && line.stmt.UpsertDetail?
  {}

  lemma WriteLinesOk(cfg: Config, c: Case, prior: OldStatus, rd: Reading, o: Outcome, now: int)
    requires IsListing(rd.unique, rd.rows) && forall r :: r in rd.rows ==> r in c.records
    requires o.Pending? || (ResultsOf(o, rd.unique) && Decided(c.records, cfg.rules, now))
    ensures LinesOk(cfg, c, WriteLines(o, |rd.rows|, prior), now)
    ensures NeverResolves(WriteLines(o, |rd.rows|, prior))
  {
    var lines := WriteLines(o, |rd.rows|, prior);
    forall line | line in lines ensures LineOk(cfg, c, line.stmt, now) && !line.stmt.SetResolved? {
      if line in DetailLines(o.Results()) { DetailLinesOk(cfg, c, rd, o, now, line); }
    }
  }

  lemma MatchOk(cfg: Config, c: Case, prior: OldStatus, rd: Reading, o: Outcome, now: int)
    requires LineOk(cfg, c, Match(prior, rd), now) && rd.rows != []
    requires Decide(rd.unique, cfg.rules, FirstSeen(rd.rows), now) == Ok(o)
    ensures LinesOk(cfg, c, WriteLines(o, |rd.rows|, prior), now)
    ensures Covered(WriteLines(o, |rd.rows|, prior), false)
  {
    PendingIff(rd.unique, rd.rows, cfg.rules, now);
    if !o.Pending? { DecidedMonotone(rd.rows, c.records, cfg.rules, now, now); }
    DecisionReports(rd.unique, cfg.rules, FirstSeen(rd.rows), now);
    WriteLinesOk(cfg, c, prior, rd, o, now);
    CoveredWithoutResolve(WriteLines(o, |rd.rows|, prior), false);
  }

  lemma ExhaustedOk(cfg: Config, c: Case, picked: Option<Source>, now: int)
    requires Decided(c.records, cfg.rules, now)
    ensures LinesOk(cfg, c, ExhaustedLines(cfg, picked), now) && Covered(ExhaustedLines(cfg, picked), false)
  {
    var marks := [Must(Mark(EXHAUSTED)), Try(Append(AuditEntry(RETRY_EXHAUSTED, Was(MISMATCHED), MISMATCHED)))];
    CoveredWithoutResolve(marks, false);
    assert marks + [] == marks;
    if picked.Some? {
      AutoApplyCovered(picked.value);
      CoveredJoin(marks, AutoApplyLines(picked.value), false);
    }
  }

  lemma ReactionOk(cfg: Config, c: Case, q: QueueRow, reply: EngineReply, picked: Option<Source>, now: int)
    requires Decided(c.records, cfg.rules, now)
    ensures LinesOk(cfg, c, ReactionLines(cfg, q, reply, picked, now), now)
    ensures Covered(ReactionLines(cfg, q, reply, picked, now), false)
  {
    hide ExhaustedLines, Decided;
    if reply == Answer(MISMATCHED) && q.attemptCount + 1 >= q.maxAttempts {
      ExhaustedOk(cfg, c, picked, now);
    } else {
      CoveredWithoutResolve(ReactionLines(cfg, q, reply, picked, now), false);
    }
  }

  lemma AutoApplyCovered(chosen: Source)
    ensures Covered(AutoApplyLines(chosen), false)
  {
    var lines := AutoApplyLines(chosen);
    assert lines[1..][1..] == lines[2..];
    CoveredWithoutResolve(lines[2..], true);
  }

  lemma ResolveCovered(r: ResolutionRow, prior: OldStatus)
    ensures Covered(ResolveLines(r, prior), false)
  {
    var lines := ResolveLines(r, prior);
    assert lines[1..][1..] == lines[2..];
    CoveredWithoutResolve(lines[2..], true);
  }

  lemma AddsOk(cfg: Config, c: Case, stmt: Stmt, rd: Reading, now: int)
    requires CaseOk(cfg, c, now) && LineOk(cfg, c, stmt, now)
    requires stmt.ReadRecords? ==> IsReading(rd, c.records)
    ensures var added := Adds(cfg, c, stmt, rd, now);
      added.Some? ==> LinesOk(cfg, c, added.value, now) && Covered(added.value, false)
  {
    var added := Adds(cfg, c, stmt, rd, now);
    match stmt
    case Match(prior, read) =>
      if read.rows == [] {
        CoveredWithoutResolve([], false);
      } else if added.Some? {
        MatchOk(cfg, c, prior, read, Decide(read.unique, cfg.rules, FirstSeen(read.rows), now).outcome, now);
      }
    case ReadRecords(_) =>
      forall r | r in rd.rows ensures r in c.records { ReadingMembers(rd, c.records, r); }
      CoveredWithoutResolve(added.value, false);
    case React(q, reply, picked) => ReactionOk(cfg, c, q, reply, picked, now);
    case CheckResolve(r) => ResolveCovered(r, StatusBefore(c));
    case _ => OtherAddsOk(cfg, c, stmt, rd, now);
  }

  lemma OtherAddsOk(cfg: Config, c: Case, stmt: Stmt, rd: Reading, now: int)
    requires CaseOk(cfg, c, now) && LineOk(cfg, c, stmt, now)
    requires !stmt.Match? && !stmt.ReadRecords? && !stmt.React? && !stmt.CheckResolve?
    ensures var added := Adds(cfg, c, stmt, rd, now);
      added.Some? && LinesOk(cfg, c, added.value, now) && Covered(added.value, false)
  {
    hide Decide, Decided, NeedsWork;
    CoveredWithoutResolve(Adds(cfg, c, stmt, rd, now).value, false);
  }

  lemma AfterFailureOk(cfg: Config, c: Case, todo: Todo, now: int, has: bool)
    requires LinesOk(cfg, c, todo, now)
    ensures LinesOk(cfg, c, AfterFailure(todo), now) && Covered(AfterFailure(todo), has)
  {
    if todo != [] {
      assert todo[0] in todo;
      AfterFailureOk(cfg, c, todo[1..], now, has);
    }
  }

  // ---------------------------------------------------------------- one line of one client

  lemma EffectOk(cfg: Config, c: Case, stmt: Stmt, now: int)
    requires CaseOk(cfg, c, now) && LineOk(cfg, c, stmt, now)
    requires stmt.SetResolved? ==> c.resolution.Some?
    ensures CaseOk(cfg, Effect(cfg, c, stmt, now), now)
  {
    GenuineKept(cfg, c, stmt, now);
    JustifiedKept(cfg, c, stmt, now);
  }

  lemma GenuineKept(cfg: Config, c: Case, stmt: Stmt, now: int)
    requires Genuine(c) && LineOk(cfg, c, stmt, now)
    ensures Genuine(Effect(cfg, c, stmt, now))
  {}

  lemma JustifiedKept(cfg: Config, c: Case, stmt: Stmt, now: int)
    requires Justified(cfg, c, now) && LineOk(cfg, c, stmt, now)
    ensures Justified(cfg, Effect(cfg, c, stmt, now), now)
  {
    var d := Effect(cfg, c, stmt, now);
    assert forall r :: r in c.records ==> r in d.records;
    if Decided(c.records, cfg.rules, now) {
      DecidedMonotone(c.records, d.records, cfg.rules, now, now);
    } else {
      NoNewDecision(cfg, c, stmt, now);
    }
  }

  lemma NoNewDecision(cfg: Config, c: Case, stmt: Stmt, now: int)
    requires LineOk(cfg, c, stmt, now) && !Decided(c.records, cfg.rules, now)
    ensures ShowsDecision(Effect(cfg, c, stmt, now)) ==> ShowsDecision(c)
  {}

  /** Running, failing or abandoning the first line leaves the client's rest in order. */
  lemma ExecOk(cfg: Config, c: Case, todo: Todo, rd: Reading, now: int)
    requires CaseOk(cfg, c, now) && todo != []
    requires Covered(todo, c.resolution.Some?) && LinesOk(cfg, c, todo, now)
    requires todo[0].stmt.ReadRecords? ==> IsReading(rd, c.records)
    ensures var d, rest := Effect(cfg, c, todo[0].stmt, now), AfterExec(cfg, c, todo, rd, now);
      CaseOk(cfg, d, now) && Covered(rest, d.resolution.Some?) && LinesOk(cfg, d, rest, now)
  {
    var d, rest := Effect(cfg, c, todo[0].stmt, now), AfterExec(cfg, c, todo, rd, now);
    assert todo[0] in todo;
    EffectOk(cfg, c, todo[0].stmt, now);
    EffectGrows(cfg, c, todo[0].stmt, now);
    AddsOk(cfg, c, todo[0].stmt, rd, now);
    AfterFailureOk(cfg, c, todo[1..], now, d.resolution.Some?);
    RestCovered(cfg, c, todo, now);
    var added := Adds(cfg, c, todo[0].stmt, rd, now);
    if added.Some? { CoveredJoin(added.value, todo[1..], d.resolution.Some?); }
    LinesStayOk(cfg, c, d, rest, now, now);
  }

  lemma RestCovered(cfg: Config, c: Case, todo: Todo, now: int)
    requires todo != [] && Covered(todo, c.resolution.Some?)
    ensures Covered(todo[1..], Effect(cfg, c, todo[0].stmt, now).resolution.Some?)
  {
    var had, has := c.resolution.Some?, Effect(cfg, c, todo[0].stmt, now).resolution.Some?;
    CoveredMonotone(todo[1..], if todo[0].stmt.SetResolved? then had else had || (todo[0].Must? && todo[0].stmt.InsertRow?), has);
  }

  lemma FailOk(cfg: Config, c: Case, todo: Todo, applied: bool, now: int)
    requires CaseOk(cfg, c, now) && todo != []
    requires Covered(todo, c.resolution.Some?) && LinesOk(cfg, c, todo, now)
    ensures var d, rest := if applied then Effect(cfg, c, todo[0].stmt, now) else c, AfterFail(todo);
      CaseOk(cfg, d, now) && Covered(rest, d.resolution.Some?) && LinesOk(cfg, d, rest, now)
  {
    var d, rest := if applied then Effect(cfg, c, todo[0].stmt, now) else c, AfterFail(todo);
    assert todo[0] in todo;
    EffectOk(cfg, c, todo[0].stmt, now);
    EffectGrows(cfg, c, todo[0].stmt, now);
    if todo[0].Try? {
      CoveredMonotone(todo[1..], c.resolution.Some?, d.resolution.Some?);
    } else {
      AfterFailureOk(cfg, c, todo, now, d.resolution.Some?);
    }
    LinesStayOk(cfg, c, d, rest, now, now);
  }

  // ---------------------------------------------------------------- steps and runs

  /** Client k moved on: its case and its program are fine, and every other client still is. */
  lemma ReplaceOk(cfg: Config, w: World, k: nat, d: Case, todo: Todo)
    requires WorldOk(cfg, w) && k < |w.clients|
    requires Grows(w.At(w.clients[k].ref), d) && CaseOk(cfg, d, w.now)
    requires Covered(todo, d.resolution.Some?) && LinesOk(cfg, d, todo, w.now)
    ensures WorldOk(cfg, w.Replace(k, d, todo))
  {
    var ref := w.clients[k].ref;
    var w' := w.Replace(k, d, todo);
    forall r ensures CaseOkAt(cfg, w', r) {
      assert CaseOkAt(cfg, w, r);
    }
    forall j | 0 <= j < |w'.clients| ensures ClientOk(cfg, w', w'.clients[j]) {
      if j != k {
        var client := w.clients[j];
        assert ClientOk(cfg, w, client);
        CoveredMonotone(client.todo, w.At(client.ref).resolution.Some?, w'.At(client.ref).resolution.Some?);
        LinesStayOk(cfg, w.At(client.ref), w'.At(client.ref), client.todo, w.now, w.now);
      }
    }
  }

  lemma TickOk(cfg: Config, w: World, later: int)
    requires WorldOk(cfg, w) && w.now <= later
    ensures WorldOk(cfg, w.(now := later))
  {
    var w' := w.(now := later);
    forall ref ensures CaseOkAt(cfg, w', ref) {
      assert CaseOkAt(cfg, w, ref);
      var c := w.At(ref);
      if Decided(c.records, cfg.rules, w.now) { DecidedMonotone(c.records, c.records, cfg.rules, w.now, later); }
    }
    forall j | 0 <= j < |w.clients| ensures ClientOk(cfg, w', w'.clients[j]) {
      var client := w.clients[j];
      assert ClientOk(cfg, w, client);
      LinesStayOk(cfg, w.At(client.ref), w.At(client.ref), client.todo, w.now, later);
    }
  }

  lemma ProgramOk(cfg: Config, c: Case, op: Operation, now: int)
    ensures Covered(Program(op), c.resolution.Some?) && LinesOk(cfg, c, Program(op), now)
  {
    CoveredWithoutResolve(Program(op), c.resolution.Some?);
  }

  lemma ClientsOk(cfg: Config, w: World, clients: seq<Client>)
    requires WorldOk(cfg, w) && forall j :: 0 <= j < |clients| ==> ClientOk(cfg, w, clients[j])
    ensures WorldOk(cfg, w.(clients := clients))
  {
    var w' := w.(clients := clients);
    forall ref ensures CaseOkAt(cfg, w', ref) { assert CaseOkAt(cfg, w, ref); }
    forall j | 0 <= j < |clients| ensures ClientOk(cfg, w', w'.clients[j]) {
      assert ClientOk(cfg, w, clients[j]);
    }
  }

  lemma DetachOk(cfg: Config, w: World, k: nat)
    requires WorldOk(cfg, w) && k < |w.clients|
    ensures var client := w.clients[k];
      && ClientOk(cfg, w, Client(client.ref, Orphaned(client.todo)))
      && ClientOk(cfg, w, Client(client.ref, AfterFailure(client.todo)))
  {
    var client := w.clients[k];
    assert ClientOk(cfg, w, client);
    var orphan := Orphaned(client.todo);
    CoveredPrefix(client.todo, orphan, w.At(client.ref).resolution.Some?);
    forall line | line in orphan ensures line in client.todo {
      var i :| 0 <= i < |orphan| && orphan[i] == line;
      assert client.todo[i] == line;
    }
    AfterFailureOk(cfg, w.At(client.ref), client.todo, w.now, w.At(client.ref).resolution.Some?);
  }

  lemma StepOk(cfg: Config, w: World, step: Step)
    requires WorldOk(cfg, w) && CanStep(w, step)
    ensures WorldOk(cfg, Next(cfg, w, step))
  {
    match step
    case Tick(later) => TickOk(cfg, w, later);
    case Spawn(ref, op) =>
      ProgramOk(cfg, w.At(ref), op, w.now);
      ClientsOk(cfg, w, w.clients + [Client(ref, Program(op))]);
    case Exec(k, rd) => ExecStepOk(cfg, w, k, rd);
    case Fail(k, applied) => FailStepOk(cfg, w, k, applied);
    case Crash(k) =>
      assert CaseOkAt(cfg, w, w.clients[k].ref);
      ReplaceOk(cfg, w, k, w.At(w.clients[k].ref), []);
    case Detach(k) =>
      DetachOk(cfg, w, k);
      var client := w.clients[k];
      ClientsOk(cfg, w, w.clients[k := Client(client.ref, Orphaned(client.todo))]
                          + [Client(client.ref, AfterFailure(client.todo))]);
  }

  lemma ExecStepOk(cfg: Config, w: World, k: nat, rd: Reading)
    requires WorldOk(cfg, w) && CanStep(w, Exec(k, rd))
    ensures WorldOk(cfg, Next(cfg, w, Exec(k, rd)))
  {
    var c, todo := w.At(w.clients[k].ref), w.clients[k].todo;
    assert CaseOkAt(cfg, w, w.clients[k].ref) && ClientOk(cfg, w, w.clients[k]);
    ExecOk(cfg, c, todo, rd, w.now);
    EffectGrows(cfg, c, todo[0].stmt, w.now);
    ReplaceOk(cfg, w, k, Effect(cfg, c, todo[0].stmt, w.now), AfterExec(cfg, c, todo, rd, w.now));
  }

  lemma FailStepOk(cfg: Config, w: World, k: nat, applied: bool)
    requires WorldOk(cfg, w) && CanStep(w, Fail(k, applied))
    ensures WorldOk(cfg, Next(cfg, w, Fail(k, applied)))
  {
    var c, todo := w.At(w.clients[k].ref), w.clients[k].todo;
    assert CaseOkAt(cfg, w, w.clients[k].ref) && ClientOk(cfg, w, w.clients[k]);
    FailOk(cfg, c, todo, applied, w.now);
    EffectGrows(cfg, c, todo[0].stmt, w.now);
    ReplaceOk(cfg, w, k, if applied then Effect(cfg, c, todo[0].stmt, w.now) else c, AfterFail(todo));
  }

  lemma {:induction false} RunOk(cfg: Config, w: World, steps: seq<Step>)
    requires WorldOk(cfg, w) && IsRun(cfg, w, steps)
    ensures WorldOk(cfg, End(cfg, w, steps))
    decreases |steps|
  {
    if steps != [] {
      StepOk(cfg, w, steps[0]);
      RunOk(cfg, Next(cfg, w, steps[0]), steps[1..]);
    }
  }

  function Empty(now: int): World { World(map[], now, []) }

  /** Under any interleaving, with failures and crashes anywhere: a RESOLVED row has a resolution
      record, every detail row shows a stored record of its source, and whatever shows a decision
      is backed by records that leave the matcher no PENDING answer. */
  lemma AnyInterleavingIsSafe(cfg: Config, now: int, steps: seq<Step>, ref: Ref)
    requires IsRun(cfg, Empty(now), steps)
    ensures var w := End(cfg, Empty(now), steps);
      var c := w.At(ref);
      && (c.HasStatus(RESOLVED) ==> c.resolution.Some?)
      && (forall s :: s in c.details ==> ShownBy(c.details[s], s, c.records))
      && (ShowsDecision(c) ==> Decided(c.records, cfg.rules, w.now))
  {
    assert WorldOk(cfg, Empty(now)) by {
      forall r ensures CaseOkAt(cfg, Empty(now), r) {}
    }
    RunOk(cfg, Empty(now), steps);
    assert CaseOkAt(cfg, End(cfg, Empty(now), steps), ref);
  }

  /** Hence no match that reads the records after a decision has become visible answers PENDING,
      whenever it gets to run. */
  lemma LaterReadsDecide(cfg: Config, now: int, steps: seq<Step>, ref: Ref, rd: Reading, later: int)
    requires IsRun(cfg, Empty(now), steps)
    requires var w := End(cfg, Empty(now), steps);
      ShowsDecision(w.At(ref)) && IsReading(rd, w.At(ref).records) && w.now <= later
    ensures rd.rows != []
    ensures var r := Decide(rd.unique, cfg.rules, FirstSeen(rd.rows), later); r.InvalidAmount? || !r.outcome.Pending?
  {
    AnyInterleavingIsSafe(cfg, now, steps, ref);
    var w := End(cfg, Empty(now), steps);
    var records := w.At(ref).records;
    ReadingDecided(rd, records, cfg.rules, w.now);
    DecidedMonotone(rd.rows, rd.rows, cfg.rules, w.now, later);
    PendingIff(rd.unique, rd.rows, cfg.rules, later);
  }

  lemma StepGrows(cfg: Config, w: World, step: Step, ref: Ref)
    requires CanStep(w, step)
    ensures Grows(w.At(ref), Next(cfg, w, step).At(ref)) && w.now <= Next(cfg, w, step).now
  {
    match step
    case Exec(k, _) => EffectGrows(cfg, w.At(w.clients[k].ref), w.clients[k].todo[0].stmt, w.now);
    case Fail(k, _) => EffectGrows(cfg, w.At(w.clients[k].ref), w.clients[k].todo[0].stmt, w.now);
    case _ =>
  }

  /** Records and audit entries are never removed, changed or reordered, and no row disappears. */
  lemma {:induction false} RunGrows(cfg: Config, w: World, steps: seq<Step>, ref: Ref)
    requires IsRun(cfg, w, steps)
    ensures Grows(w.At(ref), End(cfg, w, steps).At(ref)) && w.now <= End(cfg, w, steps).now
    decreases |steps|
  {
    if steps != [] {
      StepGrows(cfg, w, steps[0], ref);
      RunGrows(cfg, Next(cfg, w, steps[0]), steps[1..], ref);
    }
  }
}
