/** One transaction's rows in all tables, and what each SQL statement does to them
    (services/engine/src/db/queries.rs, services/resolution/internal/db/db.go). Every statement
    is keyed by one transaction_ref, so the database is a product of such cases. */
module Cases {
  import opened Wrappers
  import opened Rules
  import opened Matcher
  import opened MatcherLaws

  datatype StateRow = StateRow(
    status: Status,
    recordCount: nat,
    matchedSources: seq<Source>,
    mismatchedSources: seq<Source>,
    retryCount: nat,
    maxRetries: int,
    lastProcessedAt: Option<int>)

  datatype DetailRow = DetailRow(
    internalId: nat,
    amount: Option<int>,
    currency: Option<Currency>,
    payload: Option<Payload>,
    discrepancy: bool)

  datatype Event =
    | MATCH_ATTEMPT | RETRIGGER | MANUAL_RESOLUTION | AUTO_RESOLUTION
    | RETRY_ENQUEUED | RETRY_RESOLVED | RETRY_ATTEMPT | RETRY_EXHAUSTED | RETRY_ENGINE_ERROR

  datatype OldStatus = Null | NewTransaction | Was(status: Status)

  datatype AuditEntry = AuditEntry(event: Event, oldStatus: OldStatus, newStatus: Status)

  datatype ResolutionKind = MANUAL | AUTO

  datatype ResolutionRow = ResolutionRow(kind: ResolutionKind, chosenSource: Source, resolver: nat)

  datatype QueueStatus = QUEUED | EXHAUSTED | DONE  // PENDING, EXHAUSTED, RESOLVED

  datatype QueueRow = QueueRow(
    attemptCount: nat,
    maxAttempts: int,
    lastAttemptedAt: Option<int>,
    nextRetryAt: int,
    status: QueueStatus,
    requestedBy: nat)

  datatype Case = Case(
    records: seq<RecordView>,
    row: Option<StateRow>,
    details: map<Source, DetailRow>,
    log: seq<AuditEntry>,
    resolution: Option<ResolutionRow>,
    entry: Option<QueueRow>)
  {
    predicate HasStatus(s: Status) { row.Some? && row.value.status == s }

    predicate Queued() { entry.Some? && entry.value.status == QUEUED }

    // -------------------------------------------------------------- ingestion

    /** `first write per idempotency key wins` is decided by the store; here the row is new. */
    function InsertRecord(view: RecordView): Case { this.(records := records + [view]) }

    // -------------------------------------------------------------- engine statements

    function UpsertReconState(status: Status, recordCount: nat, matched: seq<Source>, mismatched: seq<Source>,
                              maxRetries: int, now: int): Case {
      this.(row := Some(
        if row.None? then StateRow(status, recordCount, matched, mismatched, 1, maxRetries, Some(now))
        else StateRow(status, recordCount, matched, mismatched, row.value.retryCount + 1, row.value.maxRetries, Some(now))))
    }

    function UpsertMatchDetail(sr: SourceResult): Case {
      this.(details := details[sr.source := ToDetail(sr)])
    }

    function AppendAudit(e: AuditEntry): Case { this.(log := log + [e]) }

    function ResetForRetrigger(): Case {
      if row.None? then this
      else this.(row := Some(row.value.(status := PENDING, retryCount := 0, lastProcessedAt := None)))
    }

    // -------------------------------------------------------------- resolution statements

    function UpdateToResolved(): Case {
      if row.None? then this else this.(row := Some(row.value.(status := RESOLVED)))
    }

    function InsertResolution(r: ResolutionRow): Case { this.(resolution := Some(r)) }

    /** An EXHAUSTED entry restarts at PENDING with no attempts; any other entry keeps its status
        and its count, but takes the new limit, requester and due time. */
    function EnqueueRetry(maxAttempts: int, requestedBy: nat, now: int): Case {
      this.(entry := Some(
        if entry.None? then QueueRow(0, maxAttempts, None, now, QUEUED, requestedBy)
        else if entry.value.status == EXHAUSTED then
          entry.value.(maxAttempts := maxAttempts, nextRetryAt := now, requestedBy := requestedBy,
                       status := QUEUED, attemptCount := 0)
        else entry.value.(maxAttempts := maxAttempts, nextRetryAt := now, requestedBy := requestedBy)))
    }

    function IncrementRetryAttempt(nextRetryAt: int, now: int): Case {
      if entry.None? then this
      else this.(entry := Some(entry.value.(
        attemptCount := entry.value.attemptCount + 1, lastAttemptedAt := Some(now), nextRetryAt := nextRetryAt)))
    }

    function MarkRetry(s: QueueStatus): Case {
      if entry.None? then this else this.(entry := Some(entry.value.(status := s)))
    }
  }

  const EMPTY_CASE := Case([], None, map[], [], None, None)

  function ToDetail(sr: SourceResult): DetailRow {
    DetailRow(sr.internalId, sr.amount, sr.currency, sr.payload, sr.discrepancy)
  }

  /** The detail loop of `reconcile_one`: one upsert per source result, in order. */
  function WriteDetails(c: Case, results: seq<SourceResult>): (d: Case)
    ensures d == c.(details := d.details)
  {
    if results == [] then c
    else WriteDetails(c, results[..|results| - 1]).UpsertMatchDetail(results[|results| - 1])
  }

  /** With one result per source the loop writes each of them and touches no other source. */
  lemma {:induction false} WriteDetailsAre(c: Case, results: seq<SourceResult>)
    requires forall i, j :: 0 <= i < j < |results| ==> results[i].source != results[j].source
    ensures var d := WriteDetails(c, results).details;
      && (forall i :: 0 <= i < |results| ==> results[i].source in d && d[results[i].source] == ToDetail(results[i]))
      && (forall s :: s in d ==> s in c.details || exists i :: 0 <= i < |results| && results[i].source == s)
      && (forall s :: s in c.details ==> s in d)
  {
    if results != [] {
      var n := |results| - 1;
      WriteDetailsAre(c, results[..n]);
      var before, d := WriteDetails(c, results[..n]).details, WriteDetails(c, results).details;
      assert d == before[results[n].source := ToDetail(results[n])];
      forall i | 0 <= i < |results|
        ensures results[i].source in d && d[results[i].source] == ToDetail(results[i])
      {
        if i < n { assert results[..n][i] == results[i]; }
      }
      forall s | s in d && s !in c.details ensures exists i :: 0 <= i < |results| && results[i].source == s {
        if s == results[n].source {
          assert results[n].source == s;
        } else {
          var i :| 0 <= i < n && results[..n][i].source == s;
          assert results[i].source == s;
        }
      }
    }
  }

  // ---------------------------------------------------------------- reading the records

  predicate SortedByArrival(rows: seq<RecordView>) {
    forall i, j :: 0 <= i < j < |rows| ==> rows[i].receivedAt <= rows[j].receivedAt
  }

  /** What one matching run sees: the SELECT's rows, and the hash map's order of their latest. */
  datatype Reading = Reading(rows: seq<RecordView>, unique: seq<RecordView>)

  ghost predicate IsReading(rd: Reading, records: seq<RecordView>) {
    && multiset(rd.rows) == multiset(records)
    && SortedByArrival(rd.rows)
    && IsListing(rd.unique, rd.rows)
  }

  lemma ReadingMembers(rd: Reading, records: seq<RecordView>, r: RecordView)
    requires multiset(rd.rows) == multiset(records)
    ensures r in rd.rows <==> r in records
  {
    assert r in rd.rows <==> r in multiset(rd.rows);
    assert r in records <==> r in multiset(records);
  }

  lemma ReadingDecided(rd: Reading, records: seq<RecordView>, rules: RuleSet, now: int)
    requires multiset(rd.rows) == multiset(records)
    ensures Decided(rd.rows, rules, now) <==> Decided(records, rules, now)
    ensures rd.rows == [] <==> records == []
  {
    forall r ensures r in rd.rows <==> r in records { ReadingMembers(rd, records, r); }
    if Decided(rd.rows, rules, now) { DecidedMonotone(rd.rows, records, rules, now, now); }
    if Decided(records, rules, now) { DecidedMonotone(records, rd.rows, rules, now, now); }
    assert |multiset(rd.rows)| == |rd.rows| && |multiset(records)| == |records|;
  }
}
