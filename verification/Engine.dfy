/** The reconciliation engine: worker and RPCs (services/engine/src/engine/worker.rs,
    services/engine/src/grpc/server.rs), each method proved against its one-step function. */
module Engine {
  import opened Wrappers
  import opened Rules
  import opened Matcher
  import opened MatcherLaws
  import opened Cases
  import opened Transitions
  import opened Paging
  import opened Database

  /** A visit that read `rd` took the case from c to d, or failed. */
  ghost predicate Visited(c: Case, d: Case, failed: bool, rules: RuleSet, rd: Reading, now: int) {
    IsReading(rd, c.records) && Reconciled(d, failed) == Transitions.ReconcileOne(c, rules, rd, now)
  }

  predicate Distinct(batch: seq<Ref>) { forall i, j :: 0 <= i < j < |batch| ==> batch[i] != batch[j] }

  class Engine {
    const db: Database
    const rules: RuleSet
    const batchSize: nat
    const retryBackoffSecs: nat

    constructor (db: Database, rules: RuleSet, batchSize: nat, retryBackoffSecs: nat)
      ensures this.db == db && this.rules == rules
      ensures this.batchSize == batchSize && this.retryBackoffSecs == retryBackoffSecs
    {
      this.db, this.rules, this.batchSize, this.retryBackoffSecs := db, rules, batchSize, retryBackoffSecs;
    }

    /** Read, match, and write the state row, the detail rows and the audit entry. `rd` reports the
        rows read and the order in which the matcher's hash map yielded them. */
    method ReconcileOne(ref: Ref, now: int) returns (failed: bool, ghost rd: Reading)
      modifies db
      ensures Visited(old(db.At(ref)), db.At(ref), failed, rules, rd, now) && db.Only(ref)
    {
      ghost var c := db.At(ref);
      var row := db.GetReconState(ref);
      var prior := if row.None? then NewTransaction else Was(row.value.status);
      var rows := db.SelectRecords(ref);
      if rows == [] {
        NoRowsListed();
        return false, Reading([], []);
      }
      ghost var unique;
      var result;
      result, unique := MatchRecords(rows, rules, FirstSeen(rows), now);
      rd := Reading(rows, unique);
      hide IsReading, Decide, Transitions.ReconcileOne;
      if result.InvalidAmount? {
        FailedVisit(c, rd, now);
        return true, rd;
      }
      var o := result.outcome;
      db.UpsertReconState(ref, o.Status(), |rows|, o.MatchedSources(), o.MismatchedSources(), rules.maxRetries, now);
      WriteAllDetails(ref, o.Results());
      db.InsertAuditLog(ref, AuditEntry(MATCH_ATTEMPT, prior, o.Status()));
      failed := false;
      DecidedVisit(c, rd, o, now);
    }

    lemma FailedVisit(c: Case, rd: Reading, now: int)
      requires rd.rows != [] && Decide(rd.unique, rules, FirstSeen(rd.rows), now).InvalidAmount?
      ensures Transitions.ReconcileOne(c, rules, rd, now) == Reconciled(c, true)
    {}

    lemma DecidedVisit(c: Case, rd: Reading, o: Outcome, now: int)
      requires rd.rows != [] && Decide(rd.unique, rules, FirstSeen(rd.rows), now) == Ok(o)
      ensures Transitions.ReconcileOne(c, rules, rd, now)
        == Reconciled(Persist(c, o, |rd.rows|, rules.maxRetries, now), false)
    {}

    lemma NoRowsListed()
      ensures IsListing([], [])
    {}

    method WriteAllDetails(ref: Ref, results: seq<SourceResult>)
      modifies db
      ensures db.At(ref) == WriteDetails(old(db.At(ref)), results) && db.Only(ref)
    {
      for i := 0 to |results|
        invariant db.At(ref) == WriteDetails(old(db.At(ref)), results[..i]) && db.Only(ref)
      {
        db.UpsertMatchDetail(ref, results[i]);
        assert results[..i + 1][..i] == results[..i];
      }
      assert results[..|results|] == results;
    }

    /** Reconcile the batch one by one, item i at time `clock(i)`; a failure does not stop the
        others. */
    method ReconcileAll(batch: seq<Ref>, clock: nat -> int)
      returns (ghost readings: seq<Reading>, ghost failures: seq<bool>)
      requires Distinct(batch)
      modifies db
      ensures |readings| == |failures| == |batch|
      ensures forall i :: 0 <= i < |batch| ==>
          Visited(old(db.At(batch[i])), db.At(batch[i]), failures[i], rules, readings[i], clock(i))
      ensures forall r :: r !in batch ==> db.At(r) == old(db.At(r))
    {
      readings, failures := [], [];
      hide Visited;
      for n := 0 to |batch|
        invariant |readings| == |failures| == n
        invariant forall i :: 0 <= i < n ==>
          Visited(old(db.At(batch[i])), db.At(batch[i]), failures[i], rules, readings[i], clock(i))
        invariant forall r :: r !in batch[..n] ==> db.At(r) == old(db.At(r))
      {
        assert batch[n] !in batch[..n];
        var failed;
        ghost var rd;
        failed, rd := ReconcileOne(batch[n], clock(n));
        readings, failures := readings + [rd], failures + [failed];
        assert batch[..n + 1] == batch[..n] + [batch[n]];
      }
      assert batch[..|batch|] == batch;
    }

    /** One polling cycle: the transactions waiting at `now` with the smallest refs, up to the batch
        size, are reconciled, each at its own time; nothing else changes. */
    method ProcessBatch(now: int, clock: nat -> int)
      returns (ghost refs: seq<Ref>, ghost readings: seq<Reading>, ghost failures: seq<bool>)
      modifies db
      ensures IsPage(old(db.Waiting(now - 1000 * retryBackoffSecs)), batchSize, refs)
      ensures |readings| == |failures| == |refs|
      ensures forall i :: 0 <= i < |refs| ==>
        Visited(old(db.At(refs[i])), db.At(refs[i]), failures[i], rules, readings[i], clock(i))
      ensures forall r :: r !in refs ==> db.At(r) == old(db.At(r))
    {
      var batch := db.GetPendingTransactionRefs(batchSize, now - 1000 * retryBackoffSecs);
      refs := batch;
      hide Visited;
      readings, failures := ReconcileAll(batch, clock);
    }

    /** A transaction without a state row is reconciled on the spot. */
    method GetReconState(ref: Ref, now: int) returns (row: Option<StateRow>, ghost rd: Reading)
      modifies db
      ensures old(db.At(ref)).row.None? ==> IsReading(rd, old(db.At(ref)).records)
      ensures db.At(ref) == Transitions.GetReconState(old(db.At(ref)), rules, rd, now)
      ensures row == db.At(ref).row && db.Only(ref)
    {
      row := db.GetReconState(ref);
      rd := Reading([], []);
      if row.None? {
        var failed;
        failed, rd := ReconcileOne(ref, now);
      }
      row := db.GetReconState(ref);
    }

    /** Reset, audit, reconcile, answer with the new status. */
    method ReTriggerMatch(ref: Ref, now: int) returns (reply: EngineReply, ghost rd: Reading)
      modifies db
      ensures IsReading(rd, old(db.At(ref)).records)
      ensures Retriggered(db.At(ref), reply) == Transitions.ReTriggerMatch(old(db.At(ref)), rules, rd, now)
      ensures db.Only(ref)
    {
      db.ResetForRetrigger(ref);
      db.InsertAuditLog(ref, AuditEntry(RETRIGGER, Null, PENDING));
      var failed;
      failed, rd := ReconcileOne(ref, now);
      if failed { return Failed, rd; }
      var row := db.GetReconState(ref);
      reply := if row.None? then Failed else Answer(row.value.status);
    }
  }
}
