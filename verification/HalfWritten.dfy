/** A match whose writes get through in part, because one of them fails or the client crashes, or
    because another match writes in between: what becomes of the index of the details and of the
    audit replay. */
module HalfWritten {
  import opened Wrappers
  import opened Rules
  import opened Matcher
  import opened Cases
  import opened Transitions
  import opened Invariants
  import opened Statements
  import opened Refinement
  import opened ResolutionAudit
  import opened Races
  import opened MatcherLaws
  import Survival

  // ---------------------------------------------------------------- the writes that took effect

  function Audit(o: Outcome, prior: OldStatus): AuditEntry { AuditEntry(MATCH_ATTEMPT, prior, o.Status()) }

  /** The lines i to p - 1 of a match write the details of these results, and no others. */
  ghost predicate Shown(before: map<Source, DetailRow>, after: map<Source, DetailRow>, results: seq<SourceResult>,
                        i: nat, p: nat)
  {
    && (forall j :: 0 <= j < |results| && i <= j + 1 < p ==>
      results[j].source in after && after[results[j].source] == ToDetail(results[j]))
    && (forall s :: (forall j :: 0 <= j < |results| && i <= j + 1 < p ==> results[j].source != s) ==>
      (s in after <==> s in before) && (s in before ==> after[s] == before[s]))
  }

  /** What the lines i to p - 1 of a match have made of the case c. */
  ghost predicate Wrote(c: Case, d: Case, o: Outcome, prior: OldStatus, i: nat, p: nat) {
    && d.records == c.records
    && (if i == 0 && 0 < p then
          && d.row.Some? && d.row.value.status == o.Status()
          && d.row.value.matchedSources == o.MatchedSources()
          && d.row.value.mismatchedSources == o.MismatchedSources()
        else d.row == c.row)
    && d.log == (if i < |o.Results()| + 2 == p then c.log + [Audit(o, prior)] else c.log)
    && Shown(c.details, d.details, o.Results(), i, p)
  }

  lemma WroteNothing(c: Case, o: Outcome, prior: OldStatus, i: nat)
    ensures Wrote(c, c, o, prior, i, i)
  {}

  lemma WriteLinesAre(o: Outcome, n: nat, prior: OldStatus)
    ensures var lines, m := WriteLines(o, n, prior), |o.Results()|;
      && |lines| == m + 2 && OnlyWrites(lines)
      && lines[0] == Must(UpsertState(o, n)) && lines[m + 1] == Must(Append(Audit(o, prior)))
      && forall i :: 1 <= i <= m ==> lines[i] == Must(UpsertDetail(o.Results()[i - 1]))
  {
    var details := DetailLines(o.Results());
    var lines := WriteLines(o, n, prior);
    assert lines == [Must(UpsertState(o, n))] + details + [Must(Append(Audit(o, prior)))];
    hide WriteLines, DetailLines;
    forall i | 1 <= i <= |details| ensures lines[i] == Must(UpsertDetail(o.Results()[i - 1])) {
      assert lines[i] == details[i - 1];
    }
    forall line | line in lines ensures IsWrite(line.stmt) {
      var i :| 0 <= i < |lines| && lines[i] == line;
      if 1 <= i <= |details| { assert line == details[i - 1]; }
    }
  }

  lemma WriteTail(lines: Todo, i: nat)
    requires i < |lines| && OnlyWrites(lines)
    ensures lines[i..][0] == lines[i] && lines[i..][1..] == lines[i + 1..] && OnlyWrites(lines[i..])
    ensures lines[|lines|..] == []
  {
    forall line | line in lines[i..] ensures line in lines {
      var j :| 0 <= j < |lines| - i && lines[i..][j] == line;
      assert lines[i + j] == line;
    }
  }

  ghost predicate DistinctResults(o: Outcome) {
    forall i, j :: 0 <= i < j < |o.Results()| ==> o.Results()[i].source != o.Results()[j].source
  }

  lemma ShownMore(before: map<Source, DetailRow>, after: map<Source, DetailRow>, o: Outcome, i: nat, p: nat)
    requires DistinctResults(o) && 0 < i <= |o.Results()| && i < p
    requires var sr := o.Results()[i - 1]; Shown(before[sr.source := ToDetail(sr)], after, o.Results(), i + 1, p)
    ensures Shown(before, after, o.Results(), i, p)
  {
    hide ToDetail;
  }

  lemma ShownFrom(before: map<Source, DetailRow>, after: map<Source, DetailRow>, results: seq<SourceResult>,
                  i: nat, p: nat)
    requires Shown(before, after, results, i + 1, p) && (i == 0 || |results| < i)
    ensures Shown(before, after, results, i, p)
  {}

  lemma WroteMore(cfg: Config, c: Case, d: Case, o: Outcome, n: nat, prior: OldStatus, i: nat, p: nat, now: int)
    requires DistinctResults(o) && i < p <= |o.Results()| + 2
    requires Wrote(Effect(cfg, c, WriteLines(o, n, prior)[i].stmt, now), d, o, prior, i + 1, p)
    ensures Wrote(c, d, o, prior, i, p)
  {
    WriteLinesAre(o, n, prior);
    hide WriteLines, Shown, DistinctResults;
    var next := Effect(cfg, c, WriteLines(o, n, prior)[i].stmt, now);
    if 0 < i <= |o.Results()| {
      ShownMore(c.details, d.details, o, i, p);
    } else {
      ShownFrom(c.details, d.details, o.Results(), i, p);
    }
  }

  /** Client k took the first p - i of its remaining writes, and nothing else. */
  ghost predicate TookUpTo(cfg: Config, w: World, steps: seq<Step>, k: nat, lines: Todo, i: nat, p: nat)
    requires IsRun(cfg, w, steps)
  {
    forall j :: i <= j < |lines| ==> (Took(cfg, w, steps, k, lines[j].stmt) <==> j < p)
  }

  lemma DistinctLines(o: Outcome, n: nat, prior: OldStatus)
    requires DistinctResults(o)
    ensures var lines := WriteLines(o, n, prior);
      forall i, j :: 0 <= i < j < |lines| ==> lines[i].stmt != lines[j].stmt
  {
    var lines, m := WriteLines(o, n, prior), |o.Results()|;
    WriteLinesAre(o, n, prior);
    hide WriteLines;
    forall i, j | 0 <= i < j < |lines| ensures lines[i].stmt != lines[j].stmt {
      if 0 < i && j < m + 1 { assert o.Results()[i - 1].source != o.Results()[j - 1].source; }
    }
  }

  /** The last step client k takes, at line i. */
  lemma TookLast(cfg: Config, w: World, steps: seq<Step>, k: nat, lines: Todo, i: nat) returns (p: nat)
    requires steps != [] && CanStep(w, steps[0]) && IsRun(cfg, w, steps) && i < |lines|
    requires var w' := Next(cfg, w, steps[0]); NotOvertaken(cfg, w', steps[1..], k) && w'.clients[k].todo == []
    requires forall stmt :: Takes(w, steps[0], k, stmt) ==> stmt == lines[i].stmt
    requires forall j :: i < j < |lines| ==> lines[i].stmt != lines[j].stmt
    ensures p == if Takes(w, steps[0], k, lines[i].stmt) then i + 1 else i
    ensures TookUpTo(cfg, w, steps, k, lines, i, p)
    ensures var w' := Next(cfg, w, steps[0]); End(cfg, w, steps).At(w'.clients[k].ref) == w'.At(w'.clients[k].ref)
  {
    hide Takes;
    var w' := Next(cfg, w, steps[0]);
    hide Next, CanStep;
    p := if Takes(w, steps[0], k, lines[i].stmt) then i + 1 else i;
    NothingTaken(cfg, w', steps[1..], k, lines[i].stmt);
    forall j | i <= j < |lines| ensures !Took(cfg, w', steps[1..], k, lines[j].stmt) {
      NothingTaken(cfg, w', steps[1..], k, lines[j].stmt);
    }
  }

  /** Client k's own step at line i: on to the next line, or through. */
  lemma OwnLine(cfg: Config, w: World, step: Step, k: nat, lines: Todo, i: nat)
    requires k < |w.clients| && CanStep(w, step) && !step.Tick? && !step.Spawn? && step.k == k
    requires i < |lines| && OnlyWrites(lines) && w.clients[k].todo == lines[i..] && lines[i].Must?
    ensures var w', ref := Next(cfg, w, step), w.clients[k].ref;
      && k < |w'.clients| && w'.clients[k].ref == ref
      && (w'.clients[k].todo == [] ||
          (i + 1 < |lines| && w'.clients[k].todo == lines[i + 1..] && Takes(w, step, k, lines[i].stmt)))
      && w'.At(ref) == (if Takes(w, step, k, lines[i].stmt) then Effect(cfg, w.At(ref), lines[i].stmt, w.now)
                        else w.At(ref))
      && (forall stmt :: Takes(w, step, k, stmt) ==> stmt == lines[i].stmt)
  {
    WriteTail(lines, i);
    FailureOfOnlyWrites(lines[i..]);
    assert lines[i] in lines;
    hide Takes, Effect, Next, CanStep, OnlyWrites;
    OwnMove(cfg, w, step, k);
  }

  /** A match that nobody overtakes takes effect up to some line, and no further. */
  lemma {:induction false} MatchPartly(cfg: Config, w: World, steps: seq<Step>, k: nat, o: Outcome, n: nat,
                                       prior: OldStatus, i: nat) returns (p: nat)
    requires NotOvertaken(cfg, w, steps, k) && IsRun(cfg, w, steps) && DistinctResults(o)
    requires i < |o.Results()| + 2 && w.clients[k].todo == WriteLines(o, n, prior)[i..]
    ensures i <= p <= |o.Results()| + 2
    ensures TookUpTo(cfg, w, steps, k, WriteLines(o, n, prior), i, p)
    ensures Wrote(w.At(w.clients[k].ref), End(cfg, w, steps).At(w.clients[k].ref), o, prior, i, p)
    decreases |steps|, 1
  {
    hide Next, CanStep, LeavesAlone, Takes, WriteLines, OnlyWrites, Effect, Wrote, DistinctResults;
    var lines, c := WriteLines(o, n, prior), w.At(w.clients[k].ref);
    WriteLinesAre(o, n, prior);
    p := i;
    if steps == [] {
      WroteNothing(c, o, prior, i);
    } else if steps[0].Tick? || steps[0].Spawn? || steps[0].k != k {
      OthersMove(cfg, w, steps[0], k);
      p := MatchPartly(cfg, Next(cfg, w, steps[0]), steps[1..], k, o, n, prior, i);
    } else {
      p := OwnPartly(cfg, w, steps, k, o, n, prior, i);
    }
  }

  lemma {:induction false} OwnPartly(cfg: Config, w: World, steps: seq<Step>, k: nat, o: Outcome, n: nat,
                                     prior: OldStatus, i: nat) returns (p: nat)
    requires NotOvertaken(cfg, w, steps, k) && IsRun(cfg, w, steps) && DistinctResults(o)
    requires i < |o.Results()| + 2 && w.clients[k].todo == WriteLines(o, n, prior)[i..]
    requires steps != [] && !steps[0].Tick? && !steps[0].Spawn? && steps[0].k == k
    ensures i <= p <= |o.Results()| + 2
    ensures TookUpTo(cfg, w, steps, k, WriteLines(o, n, prior), i, p)
    ensures Wrote(w.At(w.clients[k].ref), End(cfg, w, steps).At(w.clients[k].ref), o, prior, i, p)
    decreases |steps|, 0
  {
    hide Next, CanStep, LeavesAlone, Takes, WriteLines, OnlyWrites, Effect, Wrote, DistinctResults;
    var lines, c := WriteLines(o, n, prior), w.At(w.clients[k].ref);
    var w' := Next(cfg, w, steps[0]);
    WriteLinesAre(o, n, prior);
    DistinctLines(o, n, prior);
    OwnLine(cfg, w, steps[0], k, lines, i);
    if w'.clients[k].todo == [] {
      p := TookLast(cfg, w, steps, k, lines, i);
      WroteNothing(w'.At(w.clients[k].ref), o, prior, p);
    } else {
      p := MatchPartly(cfg, w', steps[1..], k, o, n, prior, i + 1);
    }
    if i < p { WroteMore(cfg, c, End(cfg, w, steps).At(w.clients[k].ref), o, n, prior, i, p, w.now); }
  }

  // ---------------------------------------------------------------- the index of the details

  /** For this result the detail rows agree with the source lists of the outcome. */
  predicate Agrees(details: map<Source, DetailRow>, o: Outcome, sr: SourceResult) {
    if o.Matched? then sr.source in details && !details[sr.source].discrepancy
    else sr.discrepancy <==> sr.source in details && details[sr.source].discrepancy
  }

  /** The state row is that of the outcome, and only its sources have detail rows. */
  ghost predicate RowOf(d: Case, o: Outcome) {
    && d.HasStatus(o.Status())
    && d.row.value.matchedSources == o.MatchedSources() && d.row.value.mismatchedSources == o.MismatchedSources()
    && forall s :: s in d.details ==> HasSource(d.records, s) && (o.Pending? || FromResult(o.results, s))
  }

  lemma IndexedByAgreement(d: Case, o: Outcome)
    requires RowOf(d, o) && DistinctResults(o)
    requires (o.Matched? ==> forall j :: 0 <= j < |o.results| ==> !o.results[j].discrepancy)
    ensures Indexed(d) <==> forall j :: 0 <= j < |o.Results()| ==> Agrees(d.details, o, o.Results()[j])
  {
    match o
    case Pending(_) =>
    case Matched(_) =>
      assert o.Results() == o.results;
      MatchedAgreement(d, o);
    case Mismatched(_, _) =>
      assert o.Results() == o.results;
      MismatchedAgreement(d, o);
  }

  lemma MatchedAgreement(d: Case, o: Outcome)
    requires RowOf(d, o) && o.Matched?
    ensures Indexed(d) <==> forall j :: 0 <= j < |o.results| ==> Agrees(d.details, o, o.results[j])
  {
    if Indexed(d) {
      forall j | 0 <= j < |o.results| ensures Agrees(d.details, o, o.results[j]) {
        assert o.MatchedSources()[j] == o.results[j].source;
      }
    }
  }

  lemma FlaggedSource(o: Outcome, j: nat)
    requires o.Mismatched? && DistinctResults(o) && j < |o.results|
    ensures o.results[j].source in o.MismatchedSources() <==> o.results[j].discrepancy
  {
    var flagged := Flagged(o.results);
    if o.results[j].source in o.MismatchedSources() {
      var i :| 0 <= i < |flagged| && flagged[i].source == o.results[j].source;
      assert flagged[i] in o.results;
      var m :| 0 <= m < |o.results| && o.results[m] == flagged[i];
      assert o.Results()[m].source == o.Results()[j].source;
    }
    if o.results[j].discrepancy {
      assert o.results[j] in flagged;
      var i :| 0 <= i < |flagged| && flagged[i] == o.results[j];
      var sources := o.MismatchedSources();
      assert sources == SourcesOf(flagged) && sources[i] == o.results[j].source;
      assert o.results[j].source in sources;
    }
  }

  lemma FlaggedFromResult(o: Outcome, s: Source)
    requires o.Mismatched? && s in o.MismatchedSources()
    ensures FromResult(o.results, s)
  {
    var flagged := Flagged(o.results);
    var i :| 0 <= i < |flagged| && flagged[i].source == s;
    assert flagged[i] in o.results;
  }

  lemma MismatchedAgreement(d: Case, o: Outcome)
    requires RowOf(d, o) && o.Mismatched? && DistinctResults(o)
    ensures Indexed(d) <==> forall j :: 0 <= j < |o.results| ==> Agrees(d.details, o, o.results[j])
  {
    forall j: nat | j < |o.results| ensures o.results[j].source in o.MismatchedSources() <==> o.results[j].discrepancy {
      FlaggedSource(o, j);
    }
    forall s | s in o.MismatchedSources() ensures FromResult(o.results, s) { FlaggedFromResult(o, s); }
    assert d.row.value.mismatchedSources == o.MismatchedSources();
    hide DistinctResults;
    assert o.Status() == MISMATCHED;
    if forall j :: 0 <= j < |o.results| ==> Agrees(d.details, o, o.results[j]) {
      forall s ensures s in o.MismatchedSources() <==> s in d.details && d.details[s].discrepancy {
        if FromResult(o.results, s) {
          var j :| 0 <= j < |o.results| && o.results[j].source == s;
          assert Agrees(d.details, o, o.results[j]);
        }
      }
    }
  }

  /** The hypotheses of a match on the current records. */
  ghost predicate Fits(c: Case, o: Outcome, rd: Reading) {
    IsReading(rd, c.records) && (o.Pending? || ResultsOf(o, rd.unique))
  }

  lemma FitsDistinct(c: Case, o: Outcome, rd: Reading)
    requires Fits(c, o, rd)
    ensures DistinctResults(o)
  {}

  lemma AgreesAfter(c: Case, d: Case, o: Outcome, prior: OldStatus, p: nat, j: nat)
    requires Wrote(c, d, o, prior, 0, p) && DistinctResults(o) && j < |o.Results()|
    requires o.Matched? ==> !o.results[j].discrepancy
    ensures Agrees(d.details, o, o.Results()[j]) <==> j + 1 < p || Agrees(c.details, o, o.Results()[j])
  {
    var s := o.Results()[j].source;
    if p <= j + 1 {
      assert forall i :: 0 <= i < |o.Results()| && 0 <= i + 1 < p ==> o.Results()[i].source != s;
    }
  }

  lemma WroteRow(c: Case, d: Case, o: Outcome, prior: OldStatus, p: nat, rd: Reading)
    requires Wrote(c, d, o, prior, 0, p) && 0 < p && Fits(c, o, rd) && DetailsWithinSources(c)
    ensures RowOf(d, o)
  {
    forall s | s in d.details ensures HasSource(d.records, s) && (o.Pending? || FromResult(o.results, s)) {
      if !o.Pending? {
        ResultSources(o, rd, s);
        ReadingSources(rd, c.records, s);
      }
      if forall j :: 0 <= j < |o.Results()| && 0 <= j + 1 < p ==> o.Results()[j].source != s {
        assert s in c.details;
      }
    }
  }

  lemma IndexedOnceWritten(c: Case, d: Case, o: Outcome, prior: OldStatus, p: nat, rd: Reading)
    requires Wrote(c, d, o, prior, 0, p) && 0 < p && Fits(c, o, rd) && Indexed(c)
    ensures Indexed(d) <==>
      forall j :: 0 <= j < |o.Results()| ==> j + 1 < p || Agrees(c.details, o, o.Results()[j])
  {
    FitsDistinct(c, o, rd);
    WroteRow(c, d, o, prior, p, rd);
    hide Agrees, Indexed, RowOf, Wrote, DistinctResults;
    IndexedByAgreement(d, o);
    forall j: nat | j < |o.Results()|
      ensures Agrees(d.details, o, o.Results()[j]) <==> j + 1 < p || Agrees(c.details, o, o.Results()[j])
    {
      AgreesAfter(c, d, o, prior, p, j);
    }
  }

  /** After the first p lines of a match the index is right iff the other details already agreed. */
  lemma IndexedAfter(c: Case, d: Case, o: Outcome, prior: OldStatus, p: nat, rd: Reading)
    requires Wrote(c, d, o, prior, 0, p) && Fits(c, o, rd) && Indexed(c)
    ensures Indexed(d) <==>
      p == 0 || forall j :: 0 <= j < |o.Results()| ==> j + 1 < p || Agrees(c.details, o, o.Results()[j])
  {
    NothingWritten(c, d, o, prior, p);
    hide Wrote, Fits, Indexed, Agrees;
    if 0 < p { IndexedOnceWritten(c, d, o, prior, p, rd); }
  }

  lemma NothingWritten(c: Case, d: Case, o: Outcome, prior: OldStatus, p: nat)
    requires Wrote(c, d, o, prior, 0, p) && Indexed(c)
    ensures p == 0 ==> Indexed(d)
  {
    if p == 0 { assert d.details == c.details; }
  }

  /** How far a match got shows in which of its statements took effect. */
  lemma TookThese(cfg: Config, w: World, steps: seq<Step>, k: nat, o: Outcome, rd: Reading, prior: OldStatus)
    returns (p: nat)
    requires NotOvertaken(cfg, w, steps, k) && IsRun(cfg, w, steps)
    requires w.clients[k].todo == WriteLines(o, |rd.rows|, prior) && DistinctResults(o)
    ensures p <= |o.Results()| + 2
    ensures Wrote(w.At(w.clients[k].ref), End(cfg, w, steps).At(w.clients[k].ref), o, prior, 0, p)
    ensures Took(cfg, w, steps, k, UpsertState(o, |rd.rows|)) <==> 0 < p
    ensures Took(cfg, w, steps, k, Append(Audit(o, prior))) <==> p == |o.Results()| + 2
    ensures forall j :: 0 <= j < |o.Results()| ==> (Took(cfg, w, steps, k, UpsertDetail(o.Results()[j])) <==> j + 1 < p)
  {
    var lines := WriteLines(o, |rd.rows|, prior);
    WriteLinesAre(o, |rd.rows|, prior);
    hide WriteLines, Took, Wrote, NotOvertaken, DistinctResults;
    assert lines[0..] == lines;
    p := MatchPartly(cfg, w, steps, k, o, |rd.rows|, prior, 0);
    assert Took(cfg, w, steps, k, lines[0].stmt) <==> 0 < p;
    assert Took(cfg, w, steps, k, lines[|lines| - 1].stmt) <==> p == |lines|;
    forall j: nat | j < |o.Results()|
      ensures Took(cfg, w, steps, k, UpsertDetail(o.Results()[j])) <==> j + 1 < p
    {
      assert lines[j + 1].stmt == UpsertDetail(o.Results()[j]);
    }
  }

  /** The index, exactly: a match that nobody overtakes, with its writes failing, taking effect
      unnoticed, or the client crashing anywhere, leaves source lists and detail rows in agreement
      if and only if its state row did not take effect, or the detail row of every result did or
      agreed already. */
  lemma IndexedIff(cfg: Config, w: World, steps: seq<Step>, k: nat, o: Outcome, rd: Reading, prior: OldStatus)
    requires NotOvertaken(cfg, w, steps, k) && IsRun(cfg, w, steps)
    requires w.clients[k].todo == WriteLines(o, |rd.rows|, prior)
    requires Fits(w.At(w.clients[k].ref), o, rd) && Indexed(w.At(w.clients[k].ref))
    ensures var c, d := w.At(w.clients[k].ref), End(cfg, w, steps).At(w.clients[k].ref);
      Indexed(d) <==>
      (Took(cfg, w, steps, k, UpsertState(o, |rd.rows|)) ==>
        forall j :: 0 <= j < |o.Results()| ==>
          Took(cfg, w, steps, k, UpsertDetail(o.Results()[j])) || Agrees(c.details, o, o.Results()[j]))
  {
    var c := w.At(w.clients[k].ref);
    hide *;
    FitsDistinct(c, o, rd);
    var p := TookThese(cfg, w, steps, k, o, rd, prior);
    IndexedAfter(c, End(cfg, w, steps).At(w.clients[k].ref), o, prior, p, rd);
  }

  // ---------------------------------------------------------------- losses

  /** Some result is not what the detail rows show. */
  ghost predicate Unshown(c: Case, o: Outcome) {
    exists j :: 0 <= j < |o.Results()| && !Agrees(c.details, o, o.Results()[j])
  }

  /** A first MATCHED always reports something new. */
  lemma MatchedUnshown(c: Case, o: Outcome, rd: Reading)
    requires Fits(c, o, rd) && rd.rows != [] && o.Matched? && c.details == map[]
    ensures Unshown(c, o)
  {
    assert HasSource(rd.unique, rd.rows[0].source);
    assert !Agrees(c.details, o, o.Results()[0]);
  }

  /** Client k runs the first of its lines, a write. */
  lemma WriteStep(cfg: Config, w: World, k: nat, line: Line, rest: Todo) returns (steps: seq<Step>)
    requires w.Ready(k) && w.clients[k].todo == [line] + rest && IsWrite(line.stmt)
    ensures IsRun(cfg, w, steps) && Calm(steps) && NoRetrigger(steps, w.clients[k].ref)
    ensures End(cfg, w, steps) == w.Replace(k, Effect(cfg, w.At(w.clients[k].ref), line.stmt, w.now), rest)
  {
    Survival.WriteAddsNothing(cfg, w.At(w.clients[k].ref), line.stmt, NOTHING_READ, w.now);
    assert [] + rest == rest;
    hide Effect, Adds;
    ExecAt(cfg, w, k, line, rest, NOTHING_READ, []);
    SingleStep(cfg, w, Exec(k, NOTHING_READ));
    steps := [Exec(k, NOTHING_READ)];
  }

  lemma FirstLine(cfg: Config, c: Case, o: Outcome, n: nat, prior: OldStatus, now: int)
    requires DistinctResults(o)
    ensures Wrote(c, Effect(cfg, c, UpsertState(o, n), now), o, prior, 0, 1)
  {
    WriteLinesAre(o, n, prior);
    hide WriteLines, Effect, Wrote, DistinctResults;
    WroteNothing(Effect(cfg, c, UpsertState(o, n), now), o, prior, 1);
    WroteMore(cfg, c, Effect(cfg, c, UpsertState(o, n), now), o, n, prior, 0, 1, now);
  }

  /** Client k, about to write the state row of a match, writes it and crashes. */
  lemma WriteAndCrash(cfg: Config, w: World, k: nat, line: Line, rest: Todo) returns (steps: seq<Step>)
    requires w.Ready(k) && w.clients[k].todo == [line] + rest && IsWrite(line.stmt) && rest != []
    ensures IsRun(cfg, w, steps)
    ensures End(cfg, w, steps).At(w.clients[k].ref) == Effect(cfg, w.At(w.clients[k].ref), line.stmt, w.now)
  {
    hide Effect, IsRun, End, Calm, NoRetrigger, IsWrite;
    steps := WriteStep(cfg, w, k, line, rest);
    steps := Further(cfg, w, steps, Crash(k));
  }

  lemma CrashAfterRow(cfg: Config, w: World, k: nat, o: Outcome, n: nat, prior: OldStatus) returns (steps: seq<Step>)
    requires k < |w.clients| && w.clients[k].todo == WriteLines(o, n, prior) && DistinctResults(o)
    ensures IsRun(cfg, w, steps)
    ensures Wrote(w.At(w.clients[k].ref), End(cfg, w, steps).At(w.clients[k].ref), o, prior, 0, 1)
  {
    var lines := WriteLines(o, n, prior);
    WriteLinesAre(o, n, prior);
    assert lines == [lines[0]] + lines[1..];
    hide *;
    FirstLine(cfg, w.At(w.clients[k].ref), o, n, prior, w.now);
    steps := WriteAndCrash(cfg, w, k, lines[0], lines[1..]);
  }

  lemma WroteStatus(c: Case, d: Case, o: Outcome, prior: OldStatus)
    requires Wrote(c, d, o, prior, 0, 1)
    ensures d.HasStatus(o.Status())
  {}

  /** A match that crashes after the state row leaves source lists that the detail rows do not bear
      out; whole operations never do. It can happen to every new transaction. */
  lemma IndexLost(cfg: Config, w: World, ref: Ref, rd: Reading, o: Outcome) returns (steps: seq<Step>)
    requires w.At(ref).row.None? && Indexed(w.At(ref)) && rd.rows != [] && Fits(w.At(ref), o, rd)
    requires Decide(rd.unique, cfg.rules, FirstSeen(rd.rows), w.now) == Ok(o) && Unshown(w.At(ref), o)
    ensures IsRun(cfg, w, steps)
    ensures var d := End(cfg, w, steps).At(ref); d.HasStatus(o.Status()) && !Indexed(d)
  {
    FitsDistinct(w.At(ref), o, rd);
    var start := MatchStarted(cfg, w, ref, rd, o);
    var w1 := End(cfg, w, start);
    assert w1.At(ref) == w.At(ref) && |w.clients| < |w1.clients|;
    assert w1.clients[|w.clients|] == Client(ref, WriteLines(o, |rd.rows|, NewTransaction));
    hide Decide, WriteLines, Indexed, Fits, DistinctResults, Agrees, IsRun, End, Wrote, Calm, NoRetrigger;
    var rest := CrashAfterRow(cfg, w1, |w.clients|, o, |rd.rows|, NewTransaction);
    RunsCompose(cfg, w, start, rest);
    steps := start + rest;
    WroteStatus(w.At(ref), End(cfg, w, steps).At(ref), o, NewTransaction);
    IndexedAfter(w.At(ref), End(cfg, w, steps).At(ref), o, NewTransaction, 1, rd);
  }

  lemma PendingWrites(o: Outcome, n: nat, prior: OldStatus)
    requires o.Pending?
    ensures WriteLines(o, n, prior) == [Must(UpsertState(o, n)), Must(Append(Audit(o, prior)))]
  {}

  /** The rest of an inline match, undisturbed. */
  lemma ReadAlone(cfg: Config, w: World, k: nat, rd: Reading, o: Outcome) returns (steps: seq<Step>)
    requires k < |w.clients| && w.clients[k].todo == [Must(ReadOld)]
    requires IsReading(rd, w.At(w.clients[k].ref).records) && rd.rows != []
    requires Decide(rd.unique, cfg.rules, FirstSeen(rd.rows), w.now) == Ok(o)
    ensures IsRun(cfg, w, steps) && Calm(steps) && NoRetrigger(steps, w.clients[k].ref)
    ensures var c := w.At(w.clients[k].ref);
      End(cfg, w, steps) == w.Replace(k, Persist(c, o, |rd.rows|, cfg.rules.maxRetries, w.now), [])
  {
    var c := w.At(w.clients[k].ref);
    hide RunAlone, Decide, IsReading, IsRun, End, Persist;
    assert [Must(ReadOld)] + [] == [Must(ReadOld)] && AfterFailure([]) == [];
    RunReconcile(cfg, c, [], Delivered, rd, w.now);
    RunNothing(cfg, ReconcileOne(c, cfg.rules, rd, w.now).c, Delivered, rd, w.now);
    steps := AloneSteps(cfg, w, k, Delivered, rd);
  }

  lemma PersistStatus(c: Case, o: Outcome, n: nat, maxRetries: int, now: int)
    ensures Persist(c, o, n, maxRetries, now).HasStatus(o.Status())
  {}

  lemma PendingToldLast(c: Case, o: Outcome)
    requires !c.HasStatus(PENDING) && c.row.Some? && o.Pending?
    ensures !Replays(c.AppendAudit(Audit(o, NewTransaction)))
  {
    LastStatusAppend(c.log, Audit(o, NewTransaction));
  }

  /** Two overlapping matches of a new transaction: the second decides between the two writes of the
      first, so the log ends in PENDING and the row does not, although nothing fails. */
  lemma ReplayLost(cfg: Config, w: World, ref: Ref, early: Reading, first: Outcome, view: RecordView,
                   full: Reading, o: Outcome)
    returns (steps: seq<Step>)
    requires w.At(ref).row.None? && IsReading(early, w.At(ref).records) && early.rows != []
    requires Decide(early.unique, cfg.rules, FirstSeen(early.rows), w.now) == Ok(first) && first.Pending?
    requires IsReading(full, w.At(ref).records + [view]) && full.rows != []
    requires Decide(full.unique, cfg.rules, FirstSeen(full.rows), w.now) == Ok(o) && !o.Pending?
    ensures IsRun(cfg, w, steps) && Calm(steps) && NoRetrigger(steps, ref)
    ensures var d := End(cfg, w, steps).At(ref); d.HasStatus(o.Status()) && !Replays(d)
  {
    var k := |w.clients|;
    var start := MatchStarted(cfg, w, ref, early, first);
    var w1 := End(cfg, w, start);
    PendingWrites(first, |early.rows|, NewTransaction);
    assert w1.clients[k].todo == [Must(UpsertState(first, |early.rows|))] + [Must(Append(Audit(first, NewTransaction)))];
    assert w1.At(ref) == w.At(ref);
    hide IsReading, Decide, IsRun, End, Calm, NoRetrigger, WriteLines, Persist, Replays;
    QueryAdds(cfg, w1.At(ref), w1.now);
    var second := Started(cfg, w1, ref, QueryState, [Must(ReadOld)]);
    var w2 := End(cfg, w1, second);
    assert w2.clients[k] == w1.clients[k] && w2.clients[k + 1] == Client(ref, [Must(ReadOld)]);
    var rest := Interrupt(cfg, w2, k, k + 1, first, |early.rows|, view, full, o);
    rest := JoinRuns(cfg, w1, second, rest, ref);
    steps := JoinRuns(cfg, w, start, rest, ref);
  }

  lemma QueryAdds(cfg: Config, c: Case, now: int)
    requires c.row.None?
    ensures Adds(cfg, c, CheckAbsent, NOTHING_READ, now) == Some([Must(ReadOld)]) && Effect(cfg, c, CheckAbsent, now) == c
  {}

  lemma JoinRuns(cfg: Config, w: World, a: seq<Step>, b: seq<Step>, ref: Ref) returns (steps: seq<Step>)
    requires IsRun(cfg, w, a) && IsRun(cfg, End(cfg, w, a), b)
    requires Calm(a) && Calm(b) && NoRetrigger(a, ref) && NoRetrigger(b, ref)
    ensures IsRun(cfg, w, steps) && Calm(steps) && NoRetrigger(steps, ref)
    ensures End(cfg, w, steps) == End(cfg, End(cfg, w, a), b)
  {
    hide IsRun, End, Calm, NoRetrigger;
    RunsCompose(cfg, w, a, b);
    CalmJoin(a, b, ref);
    steps := a + b;
  }

  /** A record arrives, and client m, waiting to match, decides. */
  lemma ArriveAndDecide(cfg: Config, w: World, m: nat, view: RecordView, full: Reading, o: Outcome)
    returns (steps: seq<Step>)
    requires m < |w.clients| && w.clients[m].todo == [Must(ReadOld)]
    requires IsReading(full, w.At(w.clients[m].ref).records + [view]) && full.rows != []
    requires Decide(full.unique, cfg.rules, FirstSeen(full.rows), w.now) == Ok(o)
    ensures IsRun(cfg, w, steps) && Calm(steps) && NoRetrigger(steps, w.clients[m].ref)
    ensures End(cfg, w, steps).At(w.clients[m].ref).HasStatus(o.Status())
    ensures var e := End(cfg, w, steps);
      |w.clients| <= |e.clients| && forall j :: 0 <= j < |w.clients| && j != m ==> e.clients[j] == w.clients[j]
  {
    var ref := w.clients[m].ref;
    hide IsReading, Decide, IsRun, End, Calm, NoRetrigger, Persist;
    var a := IngestSteps(cfg, w, ref, view);
    var w1 := End(cfg, w, a);
    var b := ReadAlone(cfg, w1, m, full, o);
    PersistStatus(w1.At(ref), o, |full.rows|, cfg.rules.maxRetries, w1.now);
    steps := JoinRuns(cfg, w, a, b, ref);
  }

  /** Client k writes its PENDING row, client m decides, client k writes its audit line. */
  lemma Interrupt(cfg: Config, w: World, k: nat, m: nat, first: Outcome, n: nat,
                  view: RecordView, full: Reading, o: Outcome)
    returns (steps: seq<Step>)
    requires k < |w.clients| && m < |w.clients| && m != k && w.clients[m] == Client(w.clients[k].ref, [Must(ReadOld)])
    requires first.Pending?
    requires w.clients[k].todo == [Must(UpsertState(first, n))] + [Must(Append(Audit(first, NewTransaction)))]
    requires IsReading(full, w.At(w.clients[k].ref).records + [view]) && full.rows != []
    requires Decide(full.unique, cfg.rules, FirstSeen(full.rows), w.now) == Ok(o) && !o.Pending?
    ensures IsRun(cfg, w, steps) && Calm(steps) && NoRetrigger(steps, w.clients[k].ref)
    ensures var d := End(cfg, w, steps).At(w.clients[k].ref); d.HasStatus(o.Status()) && !Replays(d)
  {
    hide IsReading, Decide, IsRun, End, Calm, NoRetrigger, Replays;
    var ref, last := w.clients[k].ref, Must(Append(Audit(first, NewTransaction)));
    var a := WriteStep(cfg, w, k, Must(UpsertState(first, n)), [last]);
    var w1 := End(cfg, w, a);
    assert w1.At(ref).records == w.At(ref).records && w1.now == w.now;
    hide Effect;
    var b := ArriveAndDecide(cfg, w1, m, view, full, o);
    var ab := JoinRuns(cfg, w, a, b, ref);
    var c := LastLine(cfg, End(cfg, w, ab), k, first);
    steps := JoinRuns(cfg, w, ab, c, ref);
  }

  lemma LastLine(cfg: Config, w: World, k: nat, first: Outcome) returns (steps: seq<Step>)
    requires k < |w.clients| && w.clients[k].todo == [Must(Append(Audit(first, NewTransaction)))] && first.Pending?
    requires var c := w.At(w.clients[k].ref); c.row.Some? && !c.HasStatus(PENDING)
    ensures IsRun(cfg, w, steps) && Calm(steps) && NoRetrigger(steps, w.clients[k].ref)
    ensures var d := End(cfg, w, steps).At(w.clients[k].ref); d.row == w.At(w.clients[k].ref).row && !Replays(d)
  {
    hide IsRun, End, Calm, NoRetrigger, Replays;
    var last := Must(Append(Audit(first, NewTransaction)));
    assert [last] == [last] + [];
    steps := WriteStep(cfg, w, k, last, []);
    PendingToldLast(w.At(w.clients[k].ref), first);
  }
}
