/** What does not survive interleaving. */
module Races {
  import opened Wrappers
  import opened Rules
  import opened Matcher
  import opened MatcherLaws
  import opened Cases
  import opened Transitions
  import opened Invariants
  import opened Statements
  import opened Refinement

  // ---------------------------------------------------------------- steps

  predicate StartsRetrigger(step: Step, ref: Ref) { step.Spawn? && step.ref == ref && step.op == RetriggerMatch }

  ghost predicate NoRetrigger(steps: seq<Step>, ref: Ref) { forall step :: step in steps ==> !StartsRetrigger(step, ref) }

  /** The steps of a run in which nothing fails, crashes or times out. */
  predicate Calm(steps: seq<Step>) { forall step :: step in steps ==> step.Tick? || step.Spawn? || step.Exec? }

  /** With an open entry the retry worker takes the transaction out of RESOLVED. */
  lemma OpenEntryUnresolves(cfg: Config, w: World, ref: Ref) returns (steps: seq<Step>)
    requires w.At(ref).HasStatus(RESOLVED) && w.At(ref).Queued()
    ensures IsRun(cfg, w, steps) && Calm(steps) && NoRetrigger(steps, ref)
    ensures End(cfg, w, steps).At(ref).HasStatus(PENDING)
  {
    var due := if w.now < w.At(ref).entry.value.nextRetryAt then w.At(ref).entry.value.nextRetryAt else w.now;
    var w1 := Next(cfg, w, Tick(due));
    var c, k := w1.At(ref), |w1.clients|;
    FetchAdds(cfg, c, due);
    SingleStep(cfg, w, Tick(due));
    var lines := RetriggerLines() + [Must(FetchReply(c.entry.value, None))];
    var fetch := Started(cfg, w1, ref, RetryDue(None), lines);
    hide RetriggerLines, Adds, Effect, IsRun, End;
    ExecAt(cfg, End(cfg, w1, fetch), k, Must(Reset), lines[1..], NOTHING_READ, []);
    var reset := Further(cfg, w1, fetch, Exec(k, NOTHING_READ));
    RunsCompose(cfg, w, [Tick(due)], reset);
    steps := [Tick(due)] + reset;
  }

  /** A due entry is fetched, and the first thing then is the engine's reset. */
  lemma FetchAdds(cfg: Config, c: Case, now: int)
    requires Due(c, now) && c.row.Some?
    ensures var lines := RetriggerLines() + [Must(FetchReply(c.entry.value, None))];
      && Adds(cfg, c, FetchDue(None), NOTHING_READ, now) == Some(lines) && Effect(cfg, c, FetchDue(None), now) == c
      && lines == [Must(Reset)] + lines[1..] && Adds(cfg, c, Reset, NOTHING_READ, now) == Some([])
      && Effect(cfg, c, Reset, now).HasStatus(PENDING)
  {}

  // ---------------------------------------------------------------- races

  lemma SingleStep(cfg: Config, w: World, step: Step)
    requires CanStep(w, step)
    ensures IsRun(cfg, w, [step]) && End(cfg, w, [step]) == Next(cfg, w, step)
  {
    hide CanStep, Next;
    assert [step][1..] == [];
    assert IsRun(cfg, Next(cfg, w, step), []);
  }

  /** One more step. */
  lemma Further(cfg: Config, w: World, steps: seq<Step>, step: Step) returns (more: seq<Step>)
    requires IsRun(cfg, w, steps) && CanStep(End(cfg, w, steps), step)
    ensures more == steps + [step] && IsRun(cfg, w, more) && End(cfg, w, more) == Next(cfg, End(cfg, w, steps), step)
  {
    SingleStep(cfg, End(cfg, w, steps), step);
    hide CanStep, Next;
    RunsCompose(cfg, w, steps, [step]);
    more := steps + [step];
  }

  /** A client starts an operation and runs its first line, a test. */
  lemma Started(cfg: Config, w: World, ref: Ref, op: Operation, added: Todo) returns (steps: seq<Step>)
    requires |Program(op)| == 1 && !Program(op)[0].stmt.ReadRecords?
    requires Effect(cfg, w.At(ref), Program(op)[0].stmt, w.now) == w.At(ref)
    requires Adds(cfg, w.At(ref), Program(op)[0].stmt, NOTHING_READ, w.now) == Some(added)
    ensures IsRun(cfg, w, steps)
    ensures Calm(steps) && (op != RetriggerMatch ==> NoRetrigger(steps, ref))
    ensures End(cfg, w, steps) == World(w.cases[ref := w.At(ref)], w.now, w.clients + [Client(ref, added)])
  {
    hide Adds, Effect, Program;
    var a, b := Spawn(ref, op), Exec(|w.clients|, NOTHING_READ);
    var w1 := Next(cfg, w, a);
    assert w1.clients[|w.clients|].todo[1..] == [];
    assert added + [] == added;
    var w2 := Next(cfg, w1, b);
    assert w2.clients == w.clients + [Client(ref, added)];
    SingleStep(cfg, w, a);
    steps := Further(cfg, w, [a], b);
  }

  lemma CalmJoin(a: seq<Step>, b: seq<Step>, ref: Ref)
    ensures Calm(a) && Calm(b) ==> Calm(a + b)
    ensures NoRetrigger(a, ref) && NoRetrigger(b, ref) ==> NoRetrigger(a + b, ref)
  {}

  /** A client with writes left is overtaken by a whole operation on the same transaction. */
  lemma Overtaken(cfg: Config, w: World, k: nat, op: Operation, rd: Reading) returns (steps: seq<Step>)
    requires w.Ready(k) && NeverReads(w.clients[k].todo)
    requires IsReading(rd, w.At(w.clients[k].ref).records) || ReadsNothing(op)
    ensures var ref, todo := w.clients[k].ref, w.clients[k].todo;
      && IsRun(cfg, w, steps)
      && Calm(steps) && (op != RetriggerMatch ==> NoRetrigger(steps, ref))
      && End(cfg, w, steps).now == w.now
      && End(cfg, w, steps).At(ref)
        == RunAlone(cfg, Done(cfg, w.At(ref), ActionOf(op, Delivered, rd), w.now), todo, Delivered, rd, w.now)
  {
    hide RunAlone, Done, Adds, Effect, IsReading, IsRun, End, Next, CanStep, NeverReads;
    var first := OperationSteps(cfg, w, w.clients[k].ref, op, Delivered, rd);
    var w2 := End(cfg, w, first);
    assert w2.clients[k] == w.clients[k];
    var second := AloneSteps(cfg, w2, k, Delivered, rd);
    RunsCompose(cfg, w, first, second);
    steps := first + second;
  }

  lemma ResolveDone(cfg: Config, c: Case, r: ResolutionRow, now: int)
    requires Resolvable(c)
    ensures Done(cfg, c, ActionOf(ResolveAs(r), Delivered, NOTHING_READ), now) == Resolve(c, r)
  {}

  lemma LateEnqueue(cfg: Config, c: Case, r: ResolutionRow, maxAttempts: int, who: nat, now: int)
    requires c.HasStatus(MISMATCHED) && c.entry.None?
    ensures var lines := EnqueueLines(maxAttempts, who, MISMATCHED);
      var d := RunAlone(cfg, Resolve(c, r), lines, Delivered, NOTHING_READ, now);
      d.HasStatus(RESOLVED) && d.Queued()
  {
    hide RunAlone;
    var lines := EnqueueLines(maxAttempts, who, MISMATCHED);
    RunLastTwo(cfg, Resolve(c, r), lines[0], lines[1], Delivered, NOTHING_READ, now);
  }

  /** An enqueue request that read MISMATCHED before a resolution and writes after it leaves the
      resolved transaction with an open entry: whole operations never do. */
  lemma OverlapReopens(cfg: Config, w: World, ref: Ref, r: ResolutionRow, maxAttempts: int, who: nat)
    returns (steps: seq<Step>)
    requires w.At(ref).HasStatus(MISMATCHED) && w.At(ref).entry.None?
    ensures IsRun(cfg, w, steps) && Calm(steps) && NoRetrigger(steps, ref)
    ensures End(cfg, w, steps).At(ref).HasStatus(RESOLVED) && End(cfg, w, steps).At(ref).Queued()
  {
    var k, lines := |w.clients|, EnqueueLines(maxAttempts, who, MISMATCHED);
    var start := Started(cfg, w, ref, EnqueueFor(maxAttempts, who), lines);
    var w1 := End(cfg, w, start);
    assert w1.Ready(k) && w1.At(ref) == w.At(ref) && Resolvable(w.At(ref)) && ReadsNothing(ResolveAs(r));
    assert NeverReads(lines);
    hide *;
    ResolveDone(cfg, w.At(ref), r, w.now);
    LateEnqueue(cfg, w.At(ref), r, maxAttempts, who, w.now);
    var rest := Overtaken(cfg, w1, k, ResolveAs(r), NOTHING_READ);
    RunsCompose(cfg, w, start, rest);
    CalmJoin(start, rest, ref);
    steps := start + rest;
  }

  /** So at the level of statements a resolution can be lost again, although nobody retriggers the
      transaction from outside and nothing fails. */
  lemma ResolutionLost(cfg: Config, w: World, ref: Ref, r: ResolutionRow, maxAttempts: int, who: nat)
    returns (first: seq<Step>, second: seq<Step>)
    requires w.At(ref).HasStatus(MISMATCHED) && w.At(ref).entry.None?
    ensures IsRun(cfg, w, first) && End(cfg, w, first).At(ref).HasStatus(RESOLVED)
    ensures IsRun(cfg, End(cfg, w, first), second)
    ensures End(cfg, End(cfg, w, first), second).At(ref).HasStatus(PENDING)
    ensures Calm(first + second) && NoRetrigger(first + second, ref)
  {
    first := OverlapReopens(cfg, w, ref, r, maxAttempts, who);
    second := OpenEntryUnresolves(cfg, End(cfg, w, first), ref);
  }

  lemma ExecAt(cfg: Config, w: World, k: nat, line: Line, rest: Todo, rd: Reading, added: Todo)
    requires w.Ready(k) && w.clients[k].todo == [line] + rest
    requires Adds(cfg, w.At(w.clients[k].ref), line.stmt, rd, w.now) == Some(added)
    requires line.stmt.ReadRecords? ==> IsReading(rd, w.At(w.clients[k].ref).records)
    ensures CanStep(w, Exec(k, rd))
    ensures Next(cfg, w, Exec(k, rd))
      == w.Replace(k, Effect(cfg, w.At(w.clients[k].ref), line.stmt, w.now), added + rest)
  {
    hide Adds, Effect, IsReading;
    assert w.clients[k].todo[1..] == rest;
  }

  function Writes(cfg: Config, c: Case, todo: Todo, now: int): Case
    decreases |todo|
  {
    if todo == [] then c else Writes(cfg, Effect(cfg, c, todo[0].stmt, now), todo[1..], now)
  }

  /** Client k gets through the writes at the start of its program. */
  lemma {:induction false} WriteSteps(cfg: Config, w: World, k: nat, first: Todo, rest: Todo) returns (steps: seq<Step>)
    requires k < |w.clients| && w.clients[k].todo == first + rest && OnlyWrites(first) && first != []
    ensures IsRun(cfg, w, steps)
    ensures End(cfg, w, steps) == w.Replace(k, Writes(cfg, w.At(w.clients[k].ref), first, w.now), rest)
    decreases |first|
  {
    hide Effect;
    assert first[0] in first;
    var todo := first[1..] + rest;
    assert w.clients[k].todo == [first[0]] + todo && [] + todo == todo;
    ExecAt(cfg, w, k, first[0], todo, NOTHING_READ, []);
    var w1 := Next(cfg, w, Exec(k, NOTHING_READ));
    if |first| == 1 {
      assert todo == rest;
      steps := [Exec(k, NOTHING_READ)];
      assert steps[1..] == [];
    } else {
      var more := WriteSteps(cfg, w1, k, first[1..], rest);
      steps := [Exec(k, NOTHING_READ)] + more;
      assert steps[1..] == more;
    }
  }

  lemma ResolveUnlogged(cfg: Config, w: World, ref: Ref, r: ResolutionRow) returns (steps: seq<Step>)
    requires w.At(ref).HasStatus(MISMATCHED)
    ensures IsRun(cfg, w, steps)
    ensures End(cfg, w, steps).At(ref) == w.At(ref).InsertResolution(r).UpdateToResolved().MarkRetry(DONE)
  {
    var c, lines := w.At(ref), ResolveLines(r, Was(MISMATCHED));
    ResolveParts(cfg, c, r, w.now);
    ResolveWrites(cfg, c, r, w.now);
    hide ResolveLines, Adds, Effect, OnlyWrites, Writes;
    var start := Started(cfg, w, ref, ResolveAs(r), lines);
    var w1 := End(cfg, w, start);
    assert |w.clients| < |w1.clients| && w1.clients[|w.clients|].todo == lines;
    hide *;
    var cut := CutShort(cfg, End(cfg, w, start), |w.clients|, lines[..3], lines[3]);
    RunsCompose(cfg, w, start, cut);
    steps := start + cut;
  }

  /** A resolution whose audit write fails is answered with success and leaves no trace in the log. */
  lemma SilentResolution(cfg: Config, w: World, ref: Ref, r: ResolutionRow) returns (steps: seq<Step>)
    requires w.At(ref).HasStatus(MISMATCHED) && Replays(w.At(ref))
    ensures IsRun(cfg, w, steps)
    ensures var d := End(cfg, w, steps).At(ref);
      d.HasStatus(RESOLVED) && d.log == w.At(ref).log && !Replays(d)
  {
    hide *;
    UnloggedResolution(w.At(ref), r);
    steps := ResolveUnlogged(cfg, w, ref, r);
  }

  /** Client k gets through its writes but the last, which may fail and does. */
  lemma CutShort(cfg: Config, w: World, k: nat, first: Todo, last: Line) returns (steps: seq<Step>)
    requires k < |w.clients| && w.clients[k].todo == first + [last] && OnlyWrites(first) && first != [] && last.Try?
    ensures IsRun(cfg, w, steps)
    ensures End(cfg, w, steps) == w.Replace(k, Writes(cfg, w.At(w.clients[k].ref), first, w.now), [])
  {
    hide IsRun, End, Writes, Effect, OnlyWrites;
    var writes := WriteSteps(cfg, w, k, first, [last]);
    assert [last][1..] == [];
    steps := Further(cfg, w, writes, Fail(k, false));
  }

  lemma ResolveParts(cfg: Config, c: Case, r: ResolutionRow, now: int)
    requires c.HasStatus(MISMATCHED)
    ensures var lines := ResolveLines(r, Was(MISMATCHED));
      && |lines| == 4 && lines == lines[..3] + [lines[3]] && OnlyWrites(lines[..3]) && lines[3].Try?
      && Adds(cfg, c, CheckResolve(r), NOTHING_READ, now) == Some(lines) && Effect(cfg, c, CheckResolve(r), now) == c
  {}

  lemma UnloggedResolution(c: Case, r: ResolutionRow)
    requires c.HasStatus(MISMATCHED) && Replays(c)
    ensures var d := c.InsertResolution(r).UpdateToResolved().MarkRetry(DONE);
      d.HasStatus(RESOLVED) && d.log == c.log && !Replays(d)
  {}

  lemma ResolveWrites(cfg: Config, c: Case, r: ResolutionRow, now: int)
    requires c.HasStatus(MISMATCHED)
    ensures var lines := ResolveLines(r, Was(MISMATCHED));
      Writes(cfg, c, lines[..3], now) == c.InsertResolution(r).UpdateToResolved().MarkRetry(DONE)
  {
    var lines := ResolveLines(r, Was(MISMATCHED));
    var t := lines[..3];
    assert t[1..] == [lines[1], lines[2]] && t[1..][1..] == [lines[2]] && [lines[2]][1..] == [];
    var c1, c2 := c.InsertResolution(r), c.InsertResolution(r).UpdateToResolved();
    assert Writes(cfg, c2, [lines[2]], now) == c2.MarkRetry(DONE);
    assert Writes(cfg, c1, t[1..], now) == Writes(cfg, c2, [lines[2]], now);
  }

  /** The reads of an inline match, up to the lines it will write. */
  lemma MatchStarted(cfg: Config, w: World, ref: Ref, rd: Reading, o: Outcome) returns (steps: seq<Step>)
    requires w.At(ref).row.None? && IsReading(rd, w.At(ref).records) && rd.rows != []
    requires Decide(rd.unique, cfg.rules, FirstSeen(rd.rows), w.now) == Ok(o)
    ensures IsRun(cfg, w, steps)
    ensures Calm(steps) && NoRetrigger(steps, ref)
    ensures End(cfg, w, steps) == World(w.cases[ref := w.At(ref)], w.now,
                                        w.clients + [Client(ref, WriteLines(o, |rd.rows|, NewTransaction))])
  {
    MatchAdds(cfg, w.At(ref), rd, o, w.now);
    var start := Started(cfg, w, ref, QueryState, [Must(ReadOld)]);
    var w1 := End(cfg, w, start);
    assert w1.At(ref) == w.At(ref) && w1.clients[|w.clients|] == Client(ref, [Must(ReadOld)]);
    hide *;
    var three := ThreeReads(cfg, w1, |w.clients|, rd, WriteLines(o, |rd.rows|, NewTransaction));
    ReplaceLast(w, ref, [Must(ReadOld)], WriteLines(o, |rd.rows|, NewTransaction));
    RunsCompose(cfg, w, start, three);
    CalmJoin(start, three, ref);
    steps := start + three;
  }

  lemma ReplaceLast(w: World, ref: Ref, before: Todo, after: Todo)
    ensures World(w.cases[ref := w.At(ref)], w.now, w.clients + [Client(ref, before)]).Replace(|w.clients|, w.At(ref), after)
      == World(w.cases[ref := w.At(ref)], w.now, w.clients + [Client(ref, after)])
  {}

  /** The statements of an inline match, one adding the next, up to the lines it will write. */
  ghost predicate ReadsLeadTo(cfg: Config, c: Case, rd: Reading, now: int, lines: Todo) {
    var read, compare := ReadRecords(NewTransaction), Match(NewTransaction, rd);
    && Adds(cfg, c, ReadOld, rd, now) == Some([Must(read)]) && Effect(cfg, c, ReadOld, now) == c
    && Adds(cfg, c, read, rd, now) == Some([Must(compare)]) && Effect(cfg, c, read, now) == c
    && Adds(cfg, c, compare, rd, now) == Some(lines) && Effect(cfg, c, compare, now) == c
  }

  lemma ThreeReads(cfg: Config, w: World, k: nat, rd: Reading, lines: Todo) returns (steps: seq<Step>)
    requires k < |w.clients| && w.clients[k].todo == [Must(ReadOld)]
    requires IsReading(rd, w.At(w.clients[k].ref).records)
    requires ReadsLeadTo(cfg, w.At(w.clients[k].ref), rd, w.now, lines)
    ensures IsRun(cfg, w, steps) && Calm(steps) && NoRetrigger(steps, w.clients[k].ref)
    ensures End(cfg, w, steps) == w.Replace(k, w.At(w.clients[k].ref), lines)
  {
    hide IsReading, Adds, Effect, Next, CanStep, IsRun, End;
    var read, compare := Must(ReadRecords(NewTransaction)), Must(Match(NewTransaction, rd));
    var w1 := ReadStep(cfg, w, k, Must(ReadOld), rd, [read]);
    var w2 := ReadStep(cfg, w1, k, read, rd, [compare]);
    var w3 := ReadStep(cfg, w2, k, compare, rd, lines);
    assert w3 == w.Replace(k, w.At(w.clients[k].ref), lines);
    steps := ThreeSteps(cfg, w, Exec(k, rd), w1, w2);
  }

  lemma ThreeSteps(cfg: Config, w: World, step: Step, w1: World, w2: World) returns (steps: seq<Step>)
    requires CanStep(w, step) && w1 == Next(cfg, w, step)
    requires CanStep(w1, step) && w2 == Next(cfg, w1, step) && CanStep(w2, step)
    ensures steps == [step, step, step] && IsRun(cfg, w, steps) && End(cfg, w, steps) == Next(cfg, w2, step)
  {
    SingleStep(cfg, w, step);
    hide CanStep, Next, IsRun, End;
    steps := Further(cfg, w, [step], step);
    steps := Further(cfg, w, steps, step);
  }

  lemma MatchAdds(cfg: Config, c: Case, rd: Reading, o: Outcome, now: int)
    requires c.row.None? && rd.rows != [] && Decide(rd.unique, cfg.rules, FirstSeen(rd.rows), now) == Ok(o)
    ensures Adds(cfg, c, CheckAbsent, NOTHING_READ, now) == Some([Must(ReadOld)]) && Effect(cfg, c, CheckAbsent, now) == c
    ensures ReadsLeadTo(cfg, c, rd, now, WriteLines(o, |rd.rows|, NewTransaction))
  {
    hide Decide;
  }

  /** Client k is down to one line, which only adds lines. */
  lemma ReadStep(cfg: Config, w: World, k: nat, line: Line, rd: Reading, added: Todo) returns (w': World)
    requires k < |w.clients| && w.clients[k].todo == [line]
    requires Adds(cfg, w.At(w.clients[k].ref), line.stmt, rd, w.now) == Some(added)
    requires Effect(cfg, w.At(w.clients[k].ref), line.stmt, w.now) == w.At(w.clients[k].ref)
    requires line.stmt.ReadRecords? ==> IsReading(rd, w.At(w.clients[k].ref).records)
    ensures CanStep(w, Exec(k, rd)) && w' == Next(cfg, w, Exec(k, rd))
    ensures w' == w.Replace(k, w.At(w.clients[k].ref), added)
  {
    hide Adds, Effect, IsReading;
    assert [line] + [] == [line] && added + [] == added;
    ExecAt(cfg, w, k, line, [], rd, added);
    w' := Next(cfg, w, Exec(k, rd));
  }

  /** The writes of a match that answered PENDING. */
  lemma LateWrites(cfg: Config, c: Case, n: nat, o: Outcome, rd: Reading, now: int)
    requires o.Pending?
    ensures NeverReads(WriteLines(o, n, NewTransaction)) && WriteLines(o, n, NewTransaction) != []
    ensures var d := RunAlone(cfg, c, WriteLines(o, n, NewTransaction), Delivered, rd, now);
      && d.HasStatus(PENDING) && d.records == c.records
      && d.log == c.log + [AuditEntry(MATCH_ATTEMPT, NewTransaction, PENDING)]
  {
    hide RunAlone;
    var lines := WriteLines(o, n, NewTransaction);
    assert lines == [lines[0], lines[1]];
    RunLastTwo(cfg, c, lines[0], lines[1], Delivered, rd, now);
  }

  /** The inline match that decides. */
  lemma QueryDecides(cfg: Config, c: Case, rd: Reading, o: Outcome, now: int)
    requires c.row.None? && IsReading(rd, c.records) && rd.rows != []
    requires Decide(rd.unique, cfg.rules, FirstSeen(rd.rows), now) == Ok(o)
    ensures var d := Done(cfg, c, ActionOf(QueryState, Delivered, rd), now);
      d.records == c.records && d.log == c.log + [AuditEntry(MATCH_ATTEMPT, NewTransaction, o.Status())]
  {
    hide Decide, Persist, IsReading, FirstSeen;
    PersistAttempts(c, o, |rd.rows|, cfg.rules, now);
  }

  lemma IngestDone(cfg: Config, c: Case, view: RecordView, now: int)
    ensures Done(cfg, c, ActionOf(IngestRecord(view), Delivered, NOTHING_READ), now) == c.InsertRecord(view)
  {}

  lemma IngestSteps(cfg: Config, w: World, ref: Ref, view: RecordView) returns (steps: seq<Step>)
    ensures IsRun(cfg, w, steps) && Calm(steps) && NoRetrigger(steps, ref)
    ensures End(cfg, w, steps) == World(w.cases[ref := w.At(ref).InsertRecord(view)], w.now, w.clients + [Client(ref, [])])
  {
    hide IsRun, End, Done;
    IngestDone(cfg, w.At(ref), view, w.now);
    steps := OperationSteps(cfg, w, ref, IngestRecord(view), Delivered, NOTHING_READ);
  }

  /** A match that answered PENDING has read the records but not written; a record arrives, and a
      second match reads it and decides; then the first one writes. */
  lemma LastWriterUndecides(cfg: Config, w: World, k: nat, n: nat, first: Outcome, view: RecordView,
                            full: Reading, o: Outcome)
    returns (steps: seq<Step>)
    requires k < |w.clients| && w.clients[k].todo == WriteLines(first, n, NewTransaction) && first.Pending?
    requires var c := w.At(w.clients[k].ref);
      c.row.None? && c.log == [] && IsReading(full, c.records + [view]) && full.rows != []
    requires Decide(full.unique, cfg.rules, FirstSeen(full.rows), w.now) == Ok(o)
    ensures IsRun(cfg, w, steps) && Calm(steps) && NoRetrigger(steps, w.clients[k].ref)
    ensures var ref := w.clients[k].ref;
      var c, d := w.At(ref), End(cfg, w, steps).At(ref);
      && d.HasStatus(PENDING) && d.records == c.records + [view]
      && d.log == [AuditEntry(MATCH_ATTEMPT, NewTransaction, o.Status()),
                   AuditEntry(MATCH_ATTEMPT, NewTransaction, PENDING)]
  {
    var ref := w.clients[k].ref;
    var c := w.At(ref).InsertRecord(view);
    IngestDone(cfg, w.At(ref), view, w.now);
    hide IsReading, Decide, Done, RunAlone, IsRun, End, WriteLines, NeverReads, Calm, NoRetrigger;
    QueryDecides(cfg, c, full, o, w.now);
    var e := Done(cfg, c, ActionOf(QueryState, Delivered, full), w.now);
    LateWrites(cfg, e, n, first, full, w.now);
    var ingest := IngestSteps(cfg, w, ref, view);
    var w1 := End(cfg, w, ingest);
    assert w1.clients[k] == w.clients[k];
    var rest := Overtaken(cfg, w1, k, QueryState, full);
    RunsCompose(cfg, w, ingest, rest);
    CalmJoin(ingest, rest, ref);
    steps := ingest + rest;
  }

  /** Two overlapping matches: the one that read the records first writes last, and takes a decided
      transaction back to PENDING. It can happen to every new transaction that its next record
      would decide; whole operations never do this. */
  lemma DecisionUndone(cfg: Config, w: World, ref: Ref, early: Reading, view: RecordView, full: Reading, o: Outcome)
    returns (steps: seq<Step>)
    requires w.At(ref).row.None? && w.At(ref).log == []
    requires IsReading(early, w.At(ref).records) && early.rows != [] && !Decided(w.At(ref).records, cfg.rules, w.now)
    requires IsReading(full, w.At(ref).records + [view]) && full.rows != []
    requires Decide(full.unique, cfg.rules, FirstSeen(full.rows), w.now) == Ok(o) && !o.Pending?
    ensures IsRun(cfg, w, steps) && Calm(steps) && NoRetrigger(steps, ref)
    ensures var d := End(cfg, w, steps).At(ref);
      d.HasStatus(PENDING) && Decided(d.records, cfg.rules, w.now) && !NeverUndecided(d.log)
  {
    var first := Undecided(cfg, w.At(ref).records, early, w.now);
    DecidedAt(cfg, w.At(ref).records + [view], full, o, w.now);
    DecidedThenPending(o.Status());
    var start := MatchStarted(cfg, w, ref, early, first);
    var w1 := End(cfg, w, start);
    hide IsReading, Decide, Decided, WriteLines, IsRun, End, NeverUndecided;
    var rest := LastWriterUndecides(cfg, w1, |w.clients|, |early.rows|, first, view, full, o);
    RunsCompose(cfg, w, start, rest);
    CalmJoin(start, rest, ref);
    steps := start + rest;
  }

  lemma Undecided(cfg: Config, records: seq<RecordView>, rd: Reading, now: int) returns (o: Outcome)
    requires IsReading(rd, records) && rd.rows != [] && !Decided(records, cfg.rules, now)
    ensures Decide(rd.unique, cfg.rules, FirstSeen(rd.rows), now) == Ok(o) && o.Pending?
  {
    ReadingDecided(rd, records, cfg.rules, now);
    PendingIff(rd.unique, rd.rows, cfg.rules, now);
    o := Decide(rd.unique, cfg.rules, FirstSeen(rd.rows), now).outcome;
  }

  lemma DecidedAt(cfg: Config, records: seq<RecordView>, rd: Reading, o: Outcome, now: int)
    requires IsReading(rd, records) && rd.rows != []
    requires Decide(rd.unique, cfg.rules, FirstSeen(rd.rows), now) == Ok(o) && !o.Pending?
    ensures Decided(records, cfg.rules, now)
  {
    ReadingDecided(rd, records, cfg.rules, now);
    PendingIff(rd.unique, rd.rows, cfg.rules, now);
  }

  lemma DecidedThenPending(s: Status)
    requires s != PENDING
    ensures !NeverUndecided([AuditEntry(MATCH_ATTEMPT, NewTransaction, s), AuditEntry(MATCH_ATTEMPT, NewTransaction, PENDING)])
  {
    var log := [AuditEntry(MATCH_ATTEMPT, NewTransaction, s), AuditEntry(MATCH_ATTEMPT, NewTransaction, PENDING)];
    assert DecidedEntry(log[0]) && log[1].event == MATCH_ATTEMPT;
  }

  lemma WellFormedAmountsDecide(unique: seq<RecordView>, rules: RuleSet, firstSeen: int, now: int)
    requires forall i :: 0 <= i < |unique| ==> Parses(unique[i])
    ensures Decide(unique, rules, firstSeen, now).Ok?
  {}

  lemma ExampleReadings(a: RecordView, b: RecordView)
    requires a.source != b.source && a.receivedAt <= b.receivedAt
    ensures IsReading(Reading([a], [a]), [a]) && IsReading(Reading([a, b], [a, b]), [a] + [b])
  {}

  lemma ExampleUndecided(a: RecordView, rules: RuleSet)
    requires a.receivedAt == 0 && 0 < rules.pendingTimeoutSecs
    ensures !Decided([a], rules, 0)
  {}

  lemma ExampleDecided(a: RecordView, b: RecordView, rules: RuleSet)
    requires rules.expectedSources == [] && a.source != b.source
    ensures Decided([a, b], rules, 0)
  {
    assert [a, b][0].source != [a, b][1].source;
  }

  /** Such a transaction: one source has reported and the timeout is not over, the other source is
      about to report. */
  lemma TwoSourcesExample(cfg: Config, a: RecordView, b: RecordView)
    requires cfg.rules.expectedSources == [] && a.source != b.source && Parses(a) && Parses(b)
    requires a.receivedAt == b.receivedAt == 0 && 0 < cfg.rules.pendingTimeoutSecs
    ensures IsReading(Reading([a], [a]), [a]) && !Decided([a], cfg.rules, 0)
    ensures IsReading(Reading([a, b], [a, b]), [a] + [b])
    ensures var r := Decide([a, b], cfg.rules, FirstSeen([a, b]), 0); r.Ok? && !r.outcome.Pending?
  {
    hide *;
    ExampleReadings(a, b);
    ExampleUndecided(a, cfg.rules);
    ExampleDecided(a, b, cfg.rules);
    assert [a, b][0] == a && [a, b][1] == b;
    WellFormedAmountsDecide([a, b], cfg.rules, FirstSeen([a, b]), 0);
    ReadingIsListing(Reading([a, b], [a, b]), [a] + [b]);
    PendingIff([a, b], [a, b], cfg.rules, 0);
  }

  lemma ReadingIsListing(rd: Reading, records: seq<RecordView>)
    requires IsReading(rd, records)
    ensures IsListing(rd.unique, rd.rows)
  {}
}
