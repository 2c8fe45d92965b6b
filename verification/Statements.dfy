/** The services statement by statement: each client of the database holds the lines it still has
    to run, lines of different clients interleave freely, statements fail, calls to the engine
    time out and clients crash. */
module Statements {
  import opened Wrappers
  import opened Rules
  import opened Matcher
  import opened MatcherLaws
  import opened Cases
  import opened Backoff
  import opened Transitions

  /** One database statement, or one local step between two of them. */
  datatype Stmt =
    | Insert(view: RecordView)
    | Poll
    | CheckAbsent
    | ReadOld
    | ReadRecords(prior: OldStatus)
    | Match(prior: OldStatus, rd: Reading)
    | UpsertState(o: Outcome, recordCount: nat)
    | UpsertDetail(sr: SourceResult)
    | Append(e: AuditEntry)
    | Reset
    | FetchDue(picked: Option<Source>)
    | FetchReply(fetched: QueueRow, picked: Option<Source>)
    | React(fetched: QueueRow, reply: EngineReply, picked: Option<Source>)
    | Increment(next: int)
    | Mark(s: QueueStatus)
    | CheckResolve(r: ResolutionRow)
    | InsertRow(r: ResolutionRow)
    | SetResolved
    | CheckEnqueue(maxAttempts: int, requestedBy: nat)
    | Enqueue(maxAttempts: int, requestedBy: nat)

  /** The failure of a Must line ends the operation; that of a Try line is ignored. */
  datatype Line = Must(stmt: Stmt) | Try(stmt: Stmt)

  type Todo = seq<Line>

  datatype Operation =
    | IngestRecord(view: RecordView)
    | PollOne
    | QueryState
    | RetriggerMatch
    | RetryDue(picked: Option<Source>)
    | ResolveAs(r: ResolutionRow)
    | EnqueueFor(maxAttempts: int, requestedBy: nat)

  function Program(op: Operation): Todo {
    match op
    case IngestRecord(view) => [Must(Insert(view))]
    case PollOne => [Must(Poll)]
    case QueryState => [Must(CheckAbsent)]
    case RetriggerMatch => RetriggerLines()
    case RetryDue(picked) => [Must(FetchDue(picked))]
    case ResolveAs(r) => [Must(CheckResolve(r))]
    case EnqueueFor(maxAttempts, requestedBy) => [Must(CheckEnqueue(maxAttempts, requestedBy))]
  }

  function RetriggerLines(): Todo {
    [Must(Reset), Try(Append(AuditEntry(RETRIGGER, Null, PENDING))), Must(ReadOld)]
  }

  function DetailLines(results: seq<SourceResult>): (t: Todo)
    ensures |t| == |results| && forall i :: 0 <= i < |t| ==> t[i] == Must(UpsertDetail(results[i]))
  {
    seq(|results|, i requires 0 <= i < |results| => Must(UpsertDetail(results[i])))
  }

  /** The writes of `reconcile_one` after a match. */
  function WriteLines(o: Outcome, recordCount: nat, prior: OldStatus): Todo {
    [Must(UpsertState(o, recordCount))] + DetailLines(o.Results())
      + [Must(Append(AuditEntry(MATCH_ATTEMPT, prior, o.Status())))]
  }

  /** The retry worker's reaction to a reply. */
  function ReactionLines(cfg: Config, q: QueueRow, reply: EngineReply, picked: Option<Source>, now: int): Todo {
    var next := NextRetryTime(cfg.retry, q.attemptCount + 1, now);
    match reply
    case Failed => [Try(Increment(next)), Try(Append(AuditEntry(RETRY_ENGINE_ERROR, Was(MISMATCHED), MISMATCHED)))]
    case Answer(s) =>
      match s
      case PENDING => [Must(Increment(next))]
      case MISMATCHED =>
        if q.attemptCount + 1 >= q.maxAttempts then ExhaustedLines(cfg, picked)
        else [Must(Increment(next)), Try(Append(AuditEntry(RETRY_ATTEMPT, Was(MISMATCHED), MISMATCHED)))]
      case _ => [Try(Mark(DONE)), Try(Append(AuditEntry(RETRY_RESOLVED, Was(MISMATCHED), s)))]
  }

  function ExhaustedLines(cfg: Config, picked: Option<Source>): Todo {
    [Must(Mark(EXHAUSTED)), Try(Append(AuditEntry(RETRY_EXHAUSTED, Was(MISMATCHED), MISMATCHED)))]
      + if cfg.autoApplyOnExhaustion && cfg.defaultStrategyValid && picked.Some? then AutoApplyLines(picked.value) else []
  }

  function AutoApplyLines(chosen: Source): Todo {
    [Must(InsertRow(ResolutionRow(AUTO, chosen, RETRY_WORKER))), Must(SetResolved),
     Try(Append(AuditEntry(AUTO_RESOLUTION, Was(MISMATCHED), RESOLVED))), Try(Mark(DONE))]
  }

  /** The writes of `ResolveManually` and `autoResolve` once the status read allows them. */
  function ResolveLines(r: ResolutionRow, prior: OldStatus): Todo {
    [Must(InsertRow(r)), Must(SetResolved), Try(Mark(DONE)),
     Try(Append(AuditEntry(if r.kind == MANUAL then MANUAL_RESOLUTION else AUTO_RESOLUTION, prior, RESOLVED)))]
  }

  function EnqueueLines(maxAttempts: int, requestedBy: nat, s: Status): Todo {
    [Must(Enqueue(maxAttempts, requestedBy)), Try(Append(AuditEntry(RETRY_ENQUEUED, Was(s), s)))]
  }

  /** What is left when a Must line fails: the retry worker, if it waits for this, sees an error. */
  function AfterFailure(todo: Todo): (t: Todo)
    ensures t == [] || exists q, p :: t == [Must(React(q, Failed, p))]
  {
    if todo == [] then []
    else if todo[0].stmt.FetchReply? then [Must(React(todo[0].stmt.fetched, Failed, todo[0].stmt.picked))]
    else AfterFailure(todo[1..])
  }

  /** The engine's part of a call the retry worker no longer waits for. */
  function Orphaned(todo: Todo): (t: Todo)
    ensures t <= todo
  {
    if todo == [] || todo[0].stmt.FetchReply? then [] else [todo[0]] + Orphaned(todo[1..])
  }

  /** Where the worker waits for the engine, a detach splits the program: the engine's lines go on, and
      the worker reacts to an error. */
  lemma {:induction false} DetachSplits(engine: Todo, q: QueueRow, picked: Option<Source>, rest: Todo)
    requires forall line :: line in engine ==> !line.stmt.FetchReply?
    ensures var todo := engine + [Must(FetchReply(q, picked))] + rest;
      Orphaned(todo) == engine && AfterFailure(todo) == [Must(React(q, Failed, picked))]
  {
    var todo := engine + [Must(FetchReply(q, picked))] + rest;
    if engine != [] {
      assert engine[0] in engine && todo[1..] == engine[1..] + [Must(FetchReply(q, picked))] + rest;
      DetachSplits(engine[1..], q, picked, rest);
    }
  }

  function Effect(cfg: Config, c: Case, stmt: Stmt, now: int): Case {
    match stmt
    case Insert(view) => c.InsertRecord(view)
    case UpsertState(o, n) =>
      c.UpsertReconState(o.Status(), n, o.MatchedSources(), o.MismatchedSources(), cfg.rules.maxRetries, now)
    case UpsertDetail(sr) => c.UpsertMatchDetail(sr)
    case Append(e) => c.AppendAudit(e)
    case Reset => c.ResetForRetrigger()
    case Increment(next) => c.IncrementRetryAttempt(next, now)
    case Mark(s) => c.MarkRetry(s)
    case InsertRow(r) => c.InsertResolution(r)
    case SetResolved => c.UpdateToResolved()
    case Enqueue(maxAttempts, requestedBy) => c.EnqueueRetry(maxAttempts, requestedBy, now)
    case _ => c
  }

  /** The lines the statement itself adds, given what it read, before the rest of the program;
      None when it fails: an amount that does not parse. */
  function Adds(cfg: Config, c: Case, stmt: Stmt, rd: Reading, now: int): Option<Todo> {
    match stmt
    case Poll => Some(if NeedsWork(c, BackoffCutoff(cfg, now)) then [Must(ReadOld)] else [])
    case CheckAbsent => Some(if c.row.None? then [Must(ReadOld)] else [])
    case ReadOld => Some([Must(ReadRecords(StatusBefore(c)))])
    case ReadRecords(prior) => Some(if rd.rows == [] then [] else [Must(Match(prior, rd))])
    case Match(prior, read) =>
      if read.rows == [] then Some([]) else
      (match Decide(read.unique, cfg.rules, FirstSeen(read.rows), now)
       case InvalidAmount(_) => None
       case Ok(o) => Some(WriteLines(o, |read.rows|, prior)))
    case FetchDue(picked) =>
      Some(if Due(c, now) then RetriggerLines() + [Must(FetchReply(c.entry.value, picked))] else [])
    case FetchReply(q, picked) =>
      Some([Must(React(q, if c.row.None? then Failed else Answer(c.row.value.status), picked))])
    case React(q, reply, picked) => Some(ReactionLines(cfg, q, reply, picked, now))
    case CheckResolve(r) => Some(if Resolvable(c) then ResolveLines(r, StatusBefore(c)) else [])
    case CheckEnqueue(maxAttempts, requestedBy) =>
      Some(if c.HasStatus(MISMATCHED) then EnqueueLines(maxAttempts, requestedBy, MISMATCHED) else [])
    case _ => Some([])
  }

  function AfterExec(cfg: Config, c: Case, todo: Todo, rd: Reading, now: int): Todo
    requires todo != []
  {
    var added := Adds(cfg, c, todo[0].stmt, rd, now);
    if added.Some? then added.value + todo[1..] else AfterFailure(todo[1..])
  }

  function AfterFail(todo: Todo): Todo
    requires todo != []
  {
    if todo[0].Try? then todo[1..] else AfterFailure(todo)
  }

  // ---------------------------------------------------------------- the interleaved system

  datatype Client = Client(ref: Ref, todo: Todo)

  datatype World = World(cases: map<Ref, Case>, now: int, clients: seq<Client>)
  {
    function At(ref: Ref): Case { if ref in cases then cases[ref] else EMPTY_CASE }

    predicate Ready(k: nat) { k < |clients| && clients[k].todo != [] }

    function Replace(k: nat, c: Case, todo: Todo): World
      requires k < |clients|
    {
      World(cases[clients[k].ref := c], now, clients[k := Client(clients[k].ref, todo)])
    }
  }

  datatype Step =
    | Tick(later: int)
    | Spawn(ref: Ref, op: Operation)
    | Exec(k: nat, rd: Reading)      // `rd` matters to ReadRecords only
    | Fail(k: nat, applied: bool)    // the statement fails, with or without having taken effect
    | Crash(k: nat)
    | Detach(k: nat)                 // the retry worker stops waiting for the engine

  ghost predicate CanStep(w: World, step: Step) {
    match step
    case Tick(later) => w.now <= later
    case Spawn(_, _) => true
    case Exec(k, rd) =>
      w.Ready(k) && (w.clients[k].todo[0].stmt.ReadRecords? ==> IsReading(rd, w.At(w.clients[k].ref).records))
    case Fail(k, _) => w.Ready(k)
    case Crash(k) => w.Ready(k)
    case Detach(k) => w.Ready(k) && AfterFailure(w.clients[k].todo) != []
  }

  ghost function Next(cfg: Config, w: World, step: Step): World
    requires CanStep(w, step)
  {
    match step
    case Tick(later) => w.(now := later)
    case Spawn(ref, op) => w.(clients := w.clients + [Client(ref, Program(op))])
    case Exec(k, rd) =>
      var c, todo := w.At(w.clients[k].ref), w.clients[k].todo;
      w.Replace(k, Effect(cfg, c, todo[0].stmt, w.now), AfterExec(cfg, c, todo, rd, w.now))
    case Fail(k, applied) =>
      var c, todo := w.At(w.clients[k].ref), w.clients[k].todo;
      w.Replace(k, if applied then Effect(cfg, c, todo[0].stmt, w.now) else c, AfterFail(todo))
    case Crash(k) => w.Replace(k, w.At(w.clients[k].ref), [])
    case Detach(k) =>
      var client := w.clients[k];
      w.(clients := w.clients[k := Client(client.ref, Orphaned(client.todo))]
                      + [Client(client.ref, AfterFailure(client.todo))])
  }

  ghost predicate IsRun(cfg: Config, w: World, steps: seq<Step>)
    decreases |steps|
  {
    steps == [] || (CanStep(w, steps[0]) && IsRun(cfg, Next(cfg, w, steps[0]), steps[1..]))
  }

  ghost function End(cfg: Config, w: World, steps: seq<Step>): World
    requires IsRun(cfg, w, steps)
    decreases |steps|
  {
    if steps == [] then w else End(cfg, Next(cfg, w, steps[0]), steps[1..])
  }

  lemma {:induction false} RunsCompose(cfg: Config, w: World, first: seq<Step>, second: seq<Step>)
    requires IsRun(cfg, w, first) && IsRun(cfg, End(cfg, w, first), second)
    ensures IsRun(cfg, w, first + second)
    ensures End(cfg, w, first + second) == End(cfg, End(cfg, w, first), second)
    decreases |first|
  {
    if first == [] {
      assert first + second == second;
    } else {
      assert (first + second)[1..] == first[1..] + second;
      RunsCompose(cfg, Next(cfg, w, first[0]), first[1..], second);
    }
  }
}
