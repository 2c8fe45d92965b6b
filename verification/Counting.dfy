/** How far the attempt counter of a transaction gets when matches overlap: the limit holds for one
    match at a time, and is missed by at most one for every further match in flight. */
module Counting {
  import opened Wrappers
  import opened Rules
  import opened Matcher
  import opened MatcherLaws
  import opened Cases
  import opened Transitions
  import opened Statements
  import opened Refinement
  import opened Finality
  import opened Races
  import Interleaving
  import Survival
  import HalfWritten

  // ---------------------------------------------------------------- matches in flight

  predicate Attempt(stmt: Stmt) { stmt.ReadOld? || stmt.ReadRecords? || stmt.Match? || stmt.UpsertState? }

  /** The program is inside a match that has yet to write the state row; a match behind a reset has
      not begun. */
  predicate Attempting(todo: Todo) {
    todo != [] && !todo[0].stmt.Reset? && (Attempt(todo[0].stmt) || Attempting(todo[1..]))
  }

  function InFlight(clients: seq<Client>, ref: Ref): nat {
    if clients == [] then 0 else
      var last := clients[|clients| - 1];
      InFlight(clients[..|clients| - 1], ref) + if last.ref == ref then One(last.todo) else 0
  }

  function One(todo: Todo): nat { if Attempting(todo) then 1 else 0 }

  lemma {:induction false} InFlightReplaced(clients: seq<Client>, ref: Ref, k: nat, todo: Todo)
    requires k < |clients|
    ensures InFlight(clients[k := Client(clients[k].ref, todo)], ref)
      == InFlight(clients, ref) + if clients[k].ref == ref then One(todo) - One(clients[k].todo) else 0
  {
    var n := |clients| - 1;
    var after := clients[k := Client(clients[k].ref, todo)];
    if k == n {
      assert after[..n] == clients[..n];
    } else {
      assert after[..n] == clients[..n][k := Client(clients[k].ref, todo)];
      InFlightReplaced(clients[..n], ref, k, todo);
    }
  }

  lemma InFlightAdded(clients: seq<Client>, ref: Ref, client: Client)
    ensures InFlight(clients + [client], ref) == InFlight(clients, ref) + if client.ref == ref then One(client.todo) else 0
  {
    assert (clients + [client])[..|clients|] == clients;
  }

  function Count(c: Case): nat { if c.row.None? then 0 else c.row.value.retryCount }

  function Limit(cfg: Config): int { Max(1, cfg.rules.maxRetries) }

  // ---------------------------------------------------------------- one line of one client

  /** The failure of a line is ignored if it is an audit entry, other than that of a match, or closes
      the queue entry; that of any other line, but the worker's count of an attempt, ends the program. */
  predicate Severe(line: Line) {
    match line.stmt
    case Append(e) => line.Must? <==> e.event == MATCH_ATTEMPT
    case Mark(s) => line.Must? <==> s != DONE
    case Increment(_) => true
    case _ => line.Must?
  }

  predicate AllSevere(todo: Todo) { forall line :: line in todo ==> Severe(line) }

  predicate Limited(cfg: Config, c: Case) { c.row.Some? ==> c.row.value.maxRetries == cfg.rules.maxRetries }

  /** A step from (c, todo) to (d, rest): counter and match in flight do not grow together, unless
      the counter is below the limit. */
  predicate Balanced(cfg: Config, c: Case, todo: Todo, d: Case, rest: Todo) {
    Count(d) + One(rest) <= Count(c) + One(todo) || Count(d) + 1 <= Limit(cfg)
  }

  lemma {:induction false} NoTurnsRests(todo: Todo)
    requires NoTurns(todo)
    ensures !Attempting(todo)
  {
    if todo != [] {
      assert todo[0] in todo;
      NoTurnsRests(todo[1..]);
    }
  }

  lemma FailureRests(todo: Todo)
    ensures !Attempting(AfterFailure(todo))
  {}

  lemma {:induction false} JoinRests(a: Todo, b: Todo)
    requires NoTurns(b)
    ensures Attempting(a + b) == Attempting(a)
  {
    if a == [] {
      assert a + b == b;
      NoTurnsRests(b);
    } else {
      assert (a + b)[1..] == a[1..] + b;
      JoinRests(a[1..], b);
    }
  }

  /** Only a poll and the inline match begin a match; the rest add one only when one was there. */
  lemma AddsAttempt(cfg: Config, c: Case, stmt: Stmt, rd: Reading, now: int)
    requires Limited(cfg, c) && !IsWrite(stmt)
    ensures var added := Adds(cfg, c, stmt, rd, now);
      added.Some? && Attempting(added.value) ==> Attempt(stmt) || Count(c) + 1 <= Limit(cfg)
  {
    hide Decide, ReactionLines, ResolveLines, EnqueueLines, WriteLines;
    match stmt
    case React(q, reply, picked) => ReactionRests(cfg, q, reply, picked, now);
    case CheckResolve(r) => ResolveRests(r, StatusBefore(c));
    case CheckEnqueue(m, who) => EnqueueRests(m, who);
    case FetchDue(_) =>
      var added := Adds(cfg, c, stmt, rd, now).value;
      assert added != [] ==> added[0] == Must(Reset);
    case FetchReply(_, _) => NoTurnsRests(Adds(cfg, c, stmt, rd, now).value);
    case _ =>
  }

  lemma ReactionRests(cfg: Config, q: QueueRow, reply: EngineReply, picked: Option<Source>, now: int)
    ensures !Attempting(ReactionLines(cfg, q, reply, picked, now))
  {
    assert NoTurns(ReactionLines(cfg, q, reply, picked, now));
    NoTurnsRests(ReactionLines(cfg, q, reply, picked, now));
  }

  lemma ResolveRests(r: ResolutionRow, prior: OldStatus)
    ensures !Attempting(ResolveLines(r, prior))
  {
    NoTurnsRests(ResolveLines(r, prior));
  }

  lemma EnqueueRests(m: int, who: nat)
    ensures !Attempting(EnqueueLines(m, who, MISMATCHED))
  {
    NoTurnsRests(EnqueueLines(m, who, MISMATCHED));
  }

  /** The writes: only the state row counts up, and only the reset counts down. */
  lemma WriteCounts(cfg: Config, c: Case, stmt: Stmt, now: int)
    ensures var d := Effect(cfg, c, stmt, now);
      && Count(d) <= Count(c) + (if stmt.UpsertState? then 1 else 0)
      && (stmt.Reset? ==> Count(d) == 0) && (Limited(cfg, c) ==> Limited(cfg, d))
  {}

  lemma ExecBalanced(cfg: Config, c: Case, todo: Todo, rd: Reading, now: int)
    requires todo != [] && Shaped(todo) && Limited(cfg, c)
    ensures var d := Effect(cfg, c, todo[0].stmt, now);
      Limited(cfg, d) && Balanced(cfg, c, todo, d, AfterExec(cfg, c, todo, rd, now))
  {
    hide Adds, Effect, AfterFailure, NeverOpens, NoFront, Limited;
    var stmt := todo[0].stmt;
    WriteCounts(cfg, c, stmt, now);
    FailureRests(todo[1..]);
    if IsWrite(stmt) {
      Survival.WriteAddsNothing(cfg, c, stmt, rd, now);
      assert [] + todo[1..] == todo[1..];
      if !Soft(stmt) { NoTurnsRests(todo[1..]); }
    } else {
      AddsAttempt(cfg, c, stmt, rd, now);
      var added := Adds(cfg, c, stmt, rd, now);
      if added.Some? { JoinRests(added.value, todo[1..]); }
      ReadCounts(cfg, c, stmt, now);
    }
  }

  lemma ReadCounts(cfg: Config, c: Case, stmt: Stmt, now: int)
    requires !IsWrite(stmt)
    ensures Effect(cfg, c, stmt, now) == c
  {}

  lemma FailBalanced(cfg: Config, c: Case, todo: Todo, now: int, applied: bool)
    requires todo != [] && Shaped(todo) && AllSevere(todo) && Limited(cfg, c)
    ensures var d := if applied then Effect(cfg, c, todo[0].stmt, now) else c;
      Limited(cfg, d) && Balanced(cfg, c, todo, d, AfterFail(todo))
  {
    hide Effect, AfterFailure, NeverOpens, NoFront, Limited;
    WriteCounts(cfg, c, todo[0].stmt, now);
    FailureRests(todo);
    assert todo[0] in todo;
    if !Soft(todo[0].stmt) { NoTurnsRests(todo[1..]); }
  }

  // ---------------------------------------------------------------- runs

  ghost predicate Ordered(cfg: Config, w: World, ref: Ref) {
    && AllShaped(w) && Limited(cfg, w.At(ref))
    && forall k :: 0 <= k < |w.clients| ==> AllSevere(w.clients[k].todo)
  }

  /** Counter and matches in flight together, when at most n are in flight at a time. */
  ghost predicate Bounded(cfg: Config, w: World, ref: Ref, n: nat) {
    Count(w.At(ref)) + InFlight(w.clients, ref) <= Limit(cfg) - 1 + n
  }

  lemma ReplaceWithin(cfg: Config, w: World, ref: Ref, k: nat, d: Case, rest: Todo, n: nat)
    requires k < |w.clients| && Bounded(cfg, w, ref, n) && InFlight(w.Replace(k, d, rest).clients, ref) <= n
    requires w.clients[k].ref == ref ==> Balanced(cfg, w.At(ref), w.clients[k].todo, d, rest)
    ensures Bounded(cfg, w.Replace(k, d, rest), ref, n)
  {
    hide Attempting;
    InFlightReplaced(w.clients, ref, k, rest);
  }

  lemma AddsSevere(cfg: Config, c: Case, stmt: Stmt, rd: Reading, now: int)
    ensures var added := Adds(cfg, c, stmt, rd, now); added.Some? ==> AllSevere(added.value)
  {
    hide Decide, NeedsWork;
  }

  lemma FailureSevere(todo: Todo)
    ensures AllSevere(AfterFailure(todo))
  {}

  lemma StepSevere(cfg: Config, w: World, step: Step)
    requires CanStep(w, step) && forall k :: 0 <= k < |w.clients| ==> AllSevere(w.clients[k].todo)
    ensures forall k :: 0 <= k < |Next(cfg, w, step).clients| ==> AllSevere(Next(cfg, w, step).clients[k].todo)
  {
    hide Adds, Effect, AfterFailure, Orphaned;
    match step
    case Exec(k, rd) =>
      AddsSevere(cfg, w.At(w.clients[k].ref), w.clients[k].todo[0].stmt, rd, w.now);
      FailureSevere(w.clients[k].todo[1..]);
    case Fail(k, _) => FailureSevere(w.clients[k].todo);
    case Detach(k) =>
      FailureSevere(w.clients[k].todo);
      PrefixIn(w.clients[k].todo, Orphaned(w.clients[k].todo));
    case _ =>
  }

  lemma {:induction false} OrphanRests(todo: Todo)
    ensures One(Orphaned(todo)) <= One(todo)
  {
    if todo != [] && !todo[0].stmt.FetchReply? { OrphanRests(todo[1..]); }
  }

  lemma DetachWithin(cfg: Config, w: World, ref: Ref, k: nat, n: nat)
    requires CanStep(w, Detach(k)) && Bounded(cfg, w, ref, n)
    ensures Bounded(cfg, Next(cfg, w, Detach(k)), ref, n)
  {
    hide Attempting, Orphaned, AfterFailure;
    var client := w.clients[k];
    OrphanRests(client.todo);
    FailureRests(client.todo);
    InFlightReplaced(w.clients, ref, k, Orphaned(client.todo));
    InFlightAdded(w.clients[k := Client(client.ref, Orphaned(client.todo))], ref,
                  Client(client.ref, AfterFailure(client.todo)));
  }

  lemma StepWithin(cfg: Config, w: World, step: Step, ref: Ref, n: nat)
    requires Ordered(cfg, w, ref) && CanStep(w, step) && Bounded(cfg, w, ref, n)
    requires InFlight(Next(cfg, w, step).clients, ref) <= n
    ensures Bounded(cfg, Next(cfg, w, step), ref, n) && Limited(cfg, Next(cfg, w, step).At(ref))
  {
    hide Adds, Effect, AfterExec, AfterFail, AfterFailure, Orphaned, Attempting, Shaped, AllSevere, Balanced, Limited;
    match step
    case Tick(_) =>
    case Spawn(r, op) =>
      ProgramRests(op);
      InFlightAdded(w.clients, ref, Client(r, Program(op)));
    case Exec(k, rd) =>
      var c, todo := w.At(w.clients[k].ref), w.clients[k].todo;
      if w.clients[k].ref == ref { ExecBalanced(cfg, c, todo, rd, w.now); }
      ReplaceWithin(cfg, w, ref, k, Effect(cfg, c, todo[0].stmt, w.now), AfterExec(cfg, c, todo, rd, w.now), n);
    case Fail(k, applied) =>
      var c, todo := w.At(w.clients[k].ref), w.clients[k].todo;
      if w.clients[k].ref == ref { FailBalanced(cfg, c, todo, w.now, applied); }
      ReplaceWithin(cfg, w, ref, k, if applied then Effect(cfg, c, todo[0].stmt, w.now) else c, AfterFail(todo), n);
    case Crash(k) =>
      CrashBalanced(cfg, w.At(w.clients[k].ref), w.clients[k].todo);
      ReplaceWithin(cfg, w, ref, k, w.At(w.clients[k].ref), [], n);
    case Detach(k) => DetachWithin(cfg, w, ref, k, n);
  }

  lemma CrashBalanced(cfg: Config, c: Case, todo: Todo)
    ensures Balanced(cfg, c, todo, c, [])
  {}

  lemma ProgramRests(op: Operation)
    ensures !Attempting(Program(op)) && AllSevere(Program(op))
  {}

  /** So it is with every line of every client in every reachable state. */
  lemma {:induction false} RunSevere(cfg: Config, w: World, steps: seq<Step>)
    requires IsRun(cfg, w, steps) && forall k :: 0 <= k < |w.clients| ==> AllSevere(w.clients[k].todo)
    ensures forall k :: 0 <= k < |End(cfg, w, steps).clients| ==> AllSevere(End(cfg, w, steps).clients[k].todo)
    decreases |steps|
  {
    hide AllSevere;
    if steps != [] {
      StepSevere(cfg, w, steps[0]);
      RunSevere(cfg, Next(cfg, w, steps[0]), steps[1..]);
    }
  }

  /** At most n matches of `ref` are ever in flight at the same time. */
  ghost predicate AtMost(cfg: Config, w: World, steps: seq<Step>, ref: Ref, n: nat)
    requires IsRun(cfg, w, steps)
    decreases |steps|
  {
    InFlight(w.clients, ref) <= n && (steps == [] || AtMost(cfg, Next(cfg, w, steps[0]), steps[1..], ref, n))
  }

  lemma {:induction false} RunWithin(cfg: Config, w: World, steps: seq<Step>, ref: Ref, n: nat)
    requires Ordered(cfg, w, ref) && IsRun(cfg, w, steps) && AtMost(cfg, w, steps, ref, n) && Bounded(cfg, w, ref, n)
    ensures Count(End(cfg, w, steps).At(ref)) <= Limit(cfg) - 1 + n
    decreases |steps|
  {
    hide Limited, Shaped, AllSevere;
    if steps != [] {
      var w' := Next(cfg, w, steps[0]);
      assert InFlight(w'.clients, ref) <= n;
      StepWithin(cfg, w, steps[0], ref, n);
      StepShaped(cfg, w, steps[0]);
      StepSevere(cfg, w, steps[0]);
      hide Next, CanStep, Bounded, InFlight;
      RunWithin(cfg, w', steps[1..], ref, n);
    }
  }

  /** The attempt counter under any interleaving: with at most n matches of the transaction in flight
      at a time it passes the limit by at most n - 1. */
  lemma CountBound(cfg: Config, now: int, steps: seq<Step>, ref: Ref, n: nat)
    requires IsRun(cfg, Interleaving.Empty(now), steps) && AtMost(cfg, Interleaving.Empty(now), steps, ref, n)
    ensures Count(End(cfg, Interleaving.Empty(now), steps).At(ref)) <= Limit(cfg) - 1 + n
  {
    RunWithin(cfg, Interleaving.Empty(now), steps, ref, n);
  }

  // ---------------------------------------------------------------- the bound is reached

  /** n matches of a new transaction have read it, and none has written. */
  lemma {:induction false} StartAll(cfg: Config, w: World, ref: Ref, rd: Reading, o: Outcome, n: nat)
    returns (steps: seq<Step>)
    requires w.At(ref).row.None? && IsReading(rd, w.At(ref).records) && rd.rows != []
    requires Decide(rd.unique, cfg.rules, FirstSeen(rd.rows), w.now) == Ok(o)
    ensures IsRun(cfg, w, steps)
    ensures var e := End(cfg, w, steps);
      && e.At(ref) == w.At(ref) && |e.clients| == |w.clients| + n && w.clients <= e.clients
      && forall k :: |w.clients| <= k < |e.clients| ==>
        e.clients[k] == Client(ref, WriteLines(o, |rd.rows|, NewTransaction))
    decreases n
  {
    if n == 0 {
      steps := [];
    } else {
      hide IsReading, Decide, WriteLines;
      var first := MatchStarted(cfg, w, ref, rd, o);
      var w1 := End(cfg, w, first);
      var rest := StartAll(cfg, w1, ref, rd, o, n - 1);
      hide IsRun, End, Calm, NoRetrigger;
      RunsCompose(cfg, w, first, rest);
      steps := first + rest;
    }
  }

  /** They all write their state row. */
  lemma {:induction false} UpsertAll(cfg: Config, w: World, ref: Ref, o: Outcome, m: nat, from: nat)
    returns (steps: seq<Step>)
    requires from <= |w.clients|
    requires forall k :: from <= k < |w.clients| ==> w.clients[k] == Client(ref, WriteLines(o, m, NewTransaction))
    ensures IsRun(cfg, w, steps)
    ensures Count(End(cfg, w, steps).At(ref)) == Count(w.At(ref)) + |w.clients| - from
    decreases |w.clients| - from
  {
    if from == |w.clients| {
      steps := [];
    } else {
      var lines := WriteLines(o, m, NewTransaction);
      var rest := lines[1..];
      assert lines == [Must(UpsertState(o, m))] + rest;
      hide WriteLines;
      var first := HalfWritten.WriteStep(cfg, w, from, Must(UpsertState(o, m)), rest);
      var w1 := End(cfg, w, first);
      assert Count(w1.At(ref)) == Count(w.At(ref)) + 1;
      var more := UpsertAll(cfg, w1, ref, o, m, from + 1);
      hide IsRun, End, Calm, NoRetrigger;
      RunsCompose(cfg, w, first, more);
      steps := first + more;
    }
  }

  /** n matches of a new transaction that overlap leave the counter at n, whatever the limit. */
  lemma CountReached(cfg: Config, w: World, ref: Ref, rd: Reading, o: Outcome, n: nat) returns (steps: seq<Step>)
    requires w.At(ref).row.None? && IsReading(rd, w.At(ref).records) && rd.rows != []
    requires Decide(rd.unique, cfg.rules, FirstSeen(rd.rows), w.now) == Ok(o)
    ensures IsRun(cfg, w, steps) && Count(End(cfg, w, steps).At(ref)) == n
  {
    hide IsReading, Decide, WriteLines;
    var first := StartAll(cfg, w, ref, rd, o, n);
    var rest := UpsertAll(cfg, End(cfg, w, first), ref, o, |rd.rows|, |w.clients|);
    RunsCompose(cfg, w, first, rest);
    steps := first + rest;
  }
}
