/** The shared database: its tables, and one method per SQL statement that the engine and the
    resolution service run on them (services/engine/src/db/queries.rs,
    services/resolution/internal/db/db.go). */
module Database {
  import opened Wrappers
  import opened Rules
  import opened Matcher
  import opened Cases
  import opened Transitions
  import opened Paging

  /** The rows of one transaction, in insertion order. */
  function Of<T>(table: seq<(Ref, T)>, ref: Ref): seq<T>
    decreases |table|
  {
    if table == [] then [] else
      var last := table[|table| - 1];
      Of(table[..|table| - 1], ref) + if last.0 == ref then [last.1] else []
  }

  lemma OfAppend<T>(table: seq<(Ref, T)>, ref: Ref, row: T)
    ensures Of(table + [(ref, row)], ref) == Of(table, ref) + [row]
    ensures forall r :: r != ref ==> Of(table + [(ref, row)], r) == Of(table, r)
  {}

  lemma {:induction false} OfIn<T>(table: seq<(Ref, T)>, ref: Ref)
    ensures Of(table, ref) != [] <==> exists i :: 0 <= i < |table| && table[i].0 == ref
    decreases |table|
  {
    if table != [] {
      var n := |table| - 1;
      OfIn(table[..n], ref);
      if i :| 0 <= i < n && table[i].0 == ref { assert table[..n][i].0 == ref; }
      if i :| 0 <= i < n && table[..n][i].0 == ref { assert table[i].0 == ref; }
    }
  }

  function Get<V>(table: map<Ref, V>, ref: Ref): Option<V> {
    if ref in table then Some(table[ref]) else None
  }

  /** Earlier arrivals first; among equals the new row goes last. */
  method InsertByArrival(rows: seq<RecordView>, view: RecordView) returns (out: seq<RecordView>)
    requires SortedByArrival(rows)
    ensures SortedByArrival(out) && multiset(out) == multiset(rows) + multiset{view}
  {
    var k := |rows|;
    while 0 < k && view.receivedAt < rows[k - 1].receivedAt
      invariant 0 <= k <= |rows|
      invariant k < |rows| ==> view.receivedAt < rows[k].receivedAt
    {
      k := k - 1;
    }
    out := rows[..k] + [view] + rows[k..];
    assert k > 0 ==> rows[k - 1].receivedAt <= view.receivedAt;
    Spliced(rows, view, k);
  }

  lemma SortedJoin(a: seq<RecordView>, b: seq<RecordView>)
    requires SortedByArrival(a) && SortedByArrival(b)
    requires a != [] && b != [] ==> a[|a| - 1].receivedAt <= b[0].receivedAt
    ensures SortedByArrival(a + b)
  {}

  lemma SortedParts(rows: seq<RecordView>, k: nat)
    requires SortedByArrival(rows) && k <= |rows|
    ensures SortedByArrival(rows[..k]) && SortedByArrival(rows[k..])
  {}

  lemma SplicedContents<T>(rows: seq<T>, view: T, k: nat)
    requires k <= |rows|
    ensures multiset(rows[..k] + [view] + rows[k..]) == multiset(rows) + multiset{view}
  {
    assert rows == rows[..k] + rows[k..];
  }

  lemma Spliced(rows: seq<RecordView>, view: RecordView, k: nat)
    requires SortedByArrival(rows) && k <= |rows|
    requires k < |rows| ==> view.receivedAt < rows[k].receivedAt
    requires 0 < k ==> rows[k - 1].receivedAt <= view.receivedAt
    ensures SortedByArrival(rows[..k] + [view] + rows[k..])
    ensures multiset(rows[..k] + [view] + rows[k..]) == multiset(rows) + multiset{view}
  {
    hide *;
    SortedParts(rows, k);
    SplicedContents(rows, view, k);
    SortedSingle(view);
    SortedJoin(rows[..k], [view]);
    SortedJoin(rows[..k] + [view], rows[k..]);
  }

  lemma SortedNone()
    ensures SortedByArrival([])
  {}

  lemma SortedSingle(view: RecordView)
    ensures SortedByArrival([view])
  {}

  /** The detail rows of a transaction, each source once, in some order. */
  ghost predicate ListsDetails(ds: seq<MatchDetail>, details: map<Source, DetailRow>) {
    && (forall i, j :: 0 <= i < j < |ds| ==> ds[i].source != ds[j].source)
    && (forall i :: 0 <= i < |ds| ==> ds[i].source in details && ds[i].discrepancy == details[ds[i].source].discrepancy)
    && (forall s :: s in details ==> ListedIn(ds, s))
  }

  ghost predicate ListedIn(ds: seq<MatchDetail>, s: Source) {
    exists i :: 0 <= i < |ds| && ds[i].source == s
  }

  method ListDetails(details: map<Source, DetailRow>) returns (ds: seq<MatchDetail>)
    ensures ListsDetails(ds, details)
  {
    ds := [];
    var left := details.Keys;
    while left != {}
      invariant left <= details.Keys
      invariant forall i, j :: 0 <= i < j < |ds| ==> ds[i].source != ds[j].source
      invariant forall i :: 0 <= i < |ds| ==> ds[i].source in details && ds[i].source !in left
      invariant forall i :: 0 <= i < |ds| ==> ds[i].discrepancy == details[ds[i].source].discrepancy
      invariant forall s :: s in details && s !in left ==> ListedIn(ds, s)
      decreases left
    {
      var s :| s in left;
      ghost var was := ds;
      ds := ds + [MatchDetail(s, details[s].discrepancy)];
      left := left - {s};
      forall x | x in details && x !in left ensures ListedIn(ds, x) {
        if x == s {
          assert ds[|was|].source == x;
        } else {
          var i :| 0 <= i < |was| && was[i].source == x;
          assert ds[i].source == x;
        }
      }
    }
  }

  lemma {:induction false} DetailsInAppend(scan: seq<Scanned>, ref: Ref, ds: seq<MatchDetail>, r: Ref)
    ensures DetailsIn(scan + Tagged(ref, ds), r) == DetailsIn(scan, r) + if r == ref then ds else []
    decreases |ds|
  {
    if ds == [] {
      assert scan + Tagged(ref, ds) == scan;
    } else {
      var n := |ds| - 1;
      assert (scan + Tagged(ref, ds))[..|scan| + n] == scan + Tagged(ref, ds[..n]);
      DetailsInAppend(scan, ref, ds[..n], r);
    }
  }

  function Tagged(ref: Ref, ds: seq<MatchDetail>): (t: seq<Scanned>)
    ensures |t| == |ds| && forall i :: 0 <= i < |t| ==> t[i] == Scanned(ref, ds[i])
  {
    seq(|ds|, i requires 0 <= i < |ds| => Scanned(ref, ds[i]))
  }

  class Database {
    var records: seq<(Ref, RecordView)>              // ingestion_records
    var states: map<Ref, StateRow>                   // recon_state
    var details: map<Ref, map<Source, DetailRow>>    // recon_match_details
    var audit: seq<(Ref, AuditEntry)>                // recon_audit_log
    var resolutions: map<Ref, ResolutionRow>         // resolution_records
    var queue: map<Ref, QueueRow>                    // resolution_retry_queue

    constructor ()
      ensures forall ref :: At(ref) == EMPTY_CASE
    {
      records, states, details, audit, resolutions, queue := [], map[], map[], [], map[], map[];
    }

    /** One transaction's part of every table. */
    function At(ref: Ref): Case
      reads this
    {
      Case(Of(records, ref), Get(states, ref), if ref in details then details[ref] else map[],
           Of(audit, ref), Get(resolutions, ref), Get(queue, ref))
    }

    /** The statement touched no other transaction. */
    twostate predicate Only(ref: Ref)
      reads this
    {
      forall r :: r != ref ==> At(r) == old(At(r))
    }

    // -------------------------------------------------------------- ingestion and engine

    method InsertRecord(ref: Ref, view: RecordView)
      modifies this
      ensures At(ref) == old(At(ref)).InsertRecord(view) && Only(ref)
    {
      OfAppend(records, ref, view);
      records := records + [(ref, view)];
    }

    /** SELECT … WHERE transaction_ref = $1 ORDER BY server_received_at. */
    method SelectRecords(ref: Ref) returns (rows: seq<RecordView>)
      ensures multiset(rows) == multiset(At(ref).records) && SortedByArrival(rows)
    {
      rows := [];
      hide SortedByArrival;
      SortedNone();
      for i := 0 to |records|
        invariant multiset(rows) == multiset(Of(records[..i], ref)) && SortedByArrival(rows)
      {
        assert records[..i + 1][..i] == records[..i];
        if records[i].0 == ref { rows := InsertByArrival(rows, records[i].1); }
      }
      assert records[..|records|] == records;
    }

    /** The transactions waiting for the engine worker. */
    ghost function Waiting(cutoff: int): set<Ref>
      reads this
    {
      set i | 0 <= i < |records| && NeedsWork(At(records[i].0), cutoff) :: records[i].0
    }

    lemma WaitingIff(cutoff: int, ref: Ref)
      ensures ref in Waiting(cutoff) <==> NeedsWork(At(ref), cutoff)
      ensures ref in Waiting(cutoff) <==>
        && (exists i :: 0 <= i < |records| && records[i].0 == ref)
        && (ref !in states ||
            (&& states[ref].status == PENDING && states[ref].retryCount < states[ref].maxRetries
             && (states[ref].lastProcessedAt.None? || states[ref].lastProcessedAt.value < cutoff)))
    {
      OfIn(records, ref);
    }

    method GetPendingTransactionRefs(limit: nat, cutoff: int) returns (refs: seq<Ref>)
      ensures IsPage(Waiting(cutoff), limit, refs)
    {
      var keys: set<Ref> := {};
      for i := 0 to |records|
        invariant keys == set j | 0 <= j < i && NeedsWork(At(records[j].0), cutoff) :: records[j].0
      {
        if NeedsWork(At(records[i].0), cutoff) { keys := keys + {records[i].0}; }
      }
      refs := SelectPage(keys, limit);
    }

    method UpsertReconState(ref: Ref, status: Status, recordCount: nat, matched: seq<Source>, mismatched: seq<Source>,
                            maxRetries: int, now: int)
      modifies this
      ensures At(ref) == old(At(ref)).UpsertReconState(status, recordCount, matched, mismatched, maxRetries, now)
      ensures Only(ref)
    {
      if ref in states {
        var row := states[ref];
        states := states[ref := StateRow(status, recordCount, matched, mismatched,
                                         row.retryCount + 1, row.maxRetries, Some(now))];
      } else {
        states := states[ref := StateRow(status, recordCount, matched, mismatched, 1, maxRetries, Some(now))];
      }
    }

    method UpsertMatchDetail(ref: Ref, sr: SourceResult)
      modifies this
      ensures At(ref) == old(At(ref)).UpsertMatchDetail(sr) && Only(ref)
    {
      var rows := if ref in details then details[ref] else map[];
      details := details[ref := rows[sr.source := ToDetail(sr)]];
    }

    method InsertAuditLog(ref: Ref, e: AuditEntry)
      modifies this
      ensures At(ref) == old(At(ref)).AppendAudit(e) && Only(ref)
      ensures audit == old(audit) + [(ref, e)]
    {
      OfAppend(audit, ref, e);
      audit := audit + [(ref, e)];
    }

    method ResetForRetrigger(ref: Ref)
      modifies this
      ensures At(ref) == old(At(ref)).ResetForRetrigger() && Only(ref)
    {
      if ref in states {
        states := states[ref := states[ref].(status := PENDING, retryCount := 0, lastProcessedAt := None)];
      }
    }

    method GetReconState(ref: Ref) returns (row: Option<StateRow>)
      ensures row == At(ref).row
    {
      row := Get(states, ref);
    }

    // -------------------------------------------------------------- resolution service

    method UpdateReconStateToResolved(ref: Ref)
      modifies this
      ensures At(ref) == old(At(ref)).UpdateToResolved() && Only(ref)
    {
      if ref in states { states := states[ref := states[ref].(status := RESOLVED)]; }
    }

    method InsertResolutionRecord(ref: Ref, r: ResolutionRow)
      modifies this
      ensures At(ref) == old(At(ref)).InsertResolution(r) && Only(ref)
    {
      resolutions := resolutions[ref := r];
    }

    method EnqueueRetry(ref: Ref, maxAttempts: int, requestedBy: nat, now: int)
      modifies this
      ensures At(ref) == old(At(ref)).EnqueueRetry(maxAttempts, requestedBy, now) && Only(ref)
    {
      if ref !in queue {
        queue := queue[ref := QueueRow(0, maxAttempts, None, now, QUEUED, requestedBy)];
      } else {
        var row := queue[ref].(maxAttempts := maxAttempts, nextRetryAt := now, requestedBy := requestedBy);
        queue := queue[ref := if row.status == EXHAUSTED then row.(status := QUEUED, attemptCount := 0) else row];
      }
    }

    method IncrementRetryAttempt(ref: Ref, nextRetryAt: int, now: int)
      modifies this
      ensures At(ref) == old(At(ref)).IncrementRetryAttempt(nextRetryAt, now) && Only(ref)
    {
      if ref in queue {
        var row := queue[ref];
        queue := queue[ref := row.(
          attemptCount := row.attemptCount + 1, lastAttemptedAt := Some(now), nextRetryAt := nextRetryAt)];
      }
    }

    method MarkRetryExhausted(ref: Ref)
      modifies this
      ensures At(ref) == old(At(ref)).MarkRetry(EXHAUSTED) && Only(ref)
    {
      if ref in queue { queue := queue[ref := queue[ref].(status := EXHAUSTED)]; }
    }

    method MarkRetryResolved(ref: Ref)
      modifies this
      ensures At(ref) == old(At(ref)).MarkRetry(DONE) && Only(ref)
    {
      if ref in queue { queue := queue[ref := queue[ref].(status := DONE)]; }
    }

    ghost predicate DueBatch(now: int, limit: nat, batch: seq<Ref>)
      reads this
    {
      && |batch| <= limit
      && (forall i, j :: 0 <= i < j < |batch| ==> batch[i] != batch[j])
      && (forall i :: 0 <= i < |batch| ==>
        batch[i] in queue && queue[batch[i]].status == QUEUED && queue[batch[i]].nextRetryAt <= now)
      && (forall i, j :: 0 <= i < j < |batch| ==> queue[batch[i]].nextRetryAt <= queue[batch[j]].nextRetryAt)
      && (forall r :: r in queue && queue[r].status == QUEUED && queue[r].nextRetryAt <= now && r !in batch ==>
        |batch| == limit && forall i :: 0 <= i < |batch| ==> queue[batch[i]].nextRetryAt <= queue[r].nextRetryAt)
    }

    /** What makes an entry due for the worker's visit. */
    lemma DueIff(ref: Ref, now: int)
      ensures Due(At(ref), now) <==>
        ref in queue && queue[ref].status == QUEUED && queue[ref].nextRetryAt <= now
    {}

    /** The due entry with the earliest time among `refs`. */
    method Earliest(refs: set<Ref>) returns (first: Ref)
      requires refs != {} && forall r :: r in refs ==> r in queue
      ensures first in refs && forall r :: r in refs ==> queue[first].nextRetryAt <= queue[r].nextRetryAt
    {
      first :| first in refs;
      var left := refs - {first};
      while left != {}
        invariant left <= refs && first in refs
        invariant forall r :: r in refs && r !in left ==> queue[first].nextRetryAt <= queue[r].nextRetryAt
        decreases left
      {
        var r :| r in left;
        left := left - {r};
        if queue[r].nextRetryAt < queue[first].nextRetryAt { first := r; }
      }
    }

    method DueRefs(now: int, limit: nat) returns (batch: seq<Ref>)
      ensures DueBatch(now, limit, batch)
    {
      batch := [];
      var left := set r | r in queue && queue[r].status == QUEUED && queue[r].nextRetryAt <= now;
      ghost var due := left;
      while left != {} && |batch| < limit
        invariant left <= due && |batch| <= limit
        invariant forall r :: r in due <==> r in queue && queue[r].status == QUEUED && queue[r].nextRetryAt <= now
        invariant forall i, j :: 0 <= i < j < |batch| ==> batch[i] != batch[j]
        invariant forall i :: 0 <= i < |batch| ==> batch[i] in due && batch[i] !in left
        invariant forall i, j :: 0 <= i < j < |batch| ==> queue[batch[i]].nextRetryAt <= queue[batch[j]].nextRetryAt
        invariant forall r :: r in due && r !in left ==> r in batch
        invariant forall r, i :: r in left && 0 <= i < |batch| ==> queue[batch[i]].nextRetryAt <= queue[r].nextRetryAt
        decreases left
      {
        var first := Earliest(left);
        ghost var was := batch;
        batch := batch + [first];
        left := left - {first};
        assert batch[|was|] == first;
        assert forall r :: r in was ==> r in batch;
      }
    }

    /** Up to `limit` open entries that are due, earliest first, with their refs. */
    method GetPendingRetries(now: int, limit: nat) returns (batch: seq<Ref>, entries: seq<QueueRow>)
      ensures DueBatch(now, limit, batch)
      ensures |entries| == |batch| && forall i :: 0 <= i < |batch| ==> At(batch[i]).entry == Some(entries[i])
    {
      batch := DueRefs(now, limit);
      entries := [];
      hide At;
      for i := 0 to |batch|
        invariant |entries| == i && forall k :: 0 <= k < i ==> At(batch[k]).entry == Some(entries[k])
      {
        entries := entries + [queue[batch[i]]];
        EntryOf(batch[i]);
      }
    }

    lemma EntryOf(ref: Ref)
      ensures At(ref).entry == Get(queue, ref)
    {}

    // -------------------------------------------------------------- listing the mismatches

    predicate Qualifies(ref: Ref, filter: Option<Source>)
      reads this
    {
      At(ref).HasStatus(MISMATCHED) && (filter.Some? ==> filter.value in At(ref).details)
    }

    /** The detail rows of the page's refs. */
    method ScanDetails(page: seq<Ref>) returns (scan: seq<Scanned>)
      requires Ascending(page)
      ensures forall i :: 0 <= i < |page| ==> ListsDetails(DetailsIn(scan, page[i]), At(page[i]).details)
    {
      hide ListsDetails;
      scan := [];
      for n := 0 to |page|
        invariant forall i :: 0 <= i < n ==> ListsDetails(DetailsIn(scan, page[i]), At(page[i]).details)
        invariant forall i :: n <= i < |page| ==> DetailsIn(scan, page[i]) == []
      {
        var ds := ListDetails(At(page[n]).details);
        forall i | 0 <= i < |page|
          ensures DetailsIn(scan + Tagged(page[n], ds), page[i]) == if i == n then ds else DetailsIn(scan, page[i])
        {
          DetailsInAppend(scan, page[n], ds, page[i]);
        }
        scan := scan + Tagged(page[n], ds);
      }
    }

    method MismatchedRefs(requested: int, token: Option<Ref>, filter: Option<Source>) returns (page: seq<Ref>)
      ensures IsMismatchPage(Snapshot(states, details), requested, token, filter, page) && Paging.Ascending(page)
    {
      var keys := set r | r in states && Qualifies(r, filter) && Past(token, r);
      ghost var snap := Snapshot(states, details);
      assert keys == Behind(MismatchesIn(snap, filter), token);
      page := SelectPage(keys, PageSize(requested));
      MismatchPageIff(snap, requested, token, filter, page);
    }

    /** One page of mismatches behind the token, each row with exactly its own details. */
    method ListMismatched(requested: int, token: Option<Ref>, filter: Option<Source>) returns (rows: seq<MismatchedRow>)
      ensures forall i, j :: 0 <= i < j < |rows| ==> rows[i].ref < rows[j].ref
      ensures forall i :: 0 <= i < |rows| ==>
        && rows[i].ref in states && states[rows[i].ref].status == MISMATCHED
        && (token.Some? ==> token.value < rows[i].ref)
        && (filter.Some? ==> rows[i].ref in details && filter.value in details[rows[i].ref])
      ensures forall r ::
        (&& r in states && states[r].status == MISMATCHED && (token.Some? ==> token.value < r)
         && (filter.Some? ==> r in details && filter.value in details[r])
         && (forall i :: 0 <= i < |rows| ==> rows[i].ref != r)) ==>
        |rows| == PageSize(requested) && forall i :: 0 <= i < |rows| ==> rows[i].ref < r
      ensures IsMismatchPage(Snapshot(states, details), requested, token, filter, RefsOf(rows))
      ensures forall i :: 0 <= i < |rows| ==> ListsDetails(rows[i].details, At(rows[i].ref).details)
    {
      hide IsMismatchPage, ListsDetails, At;
      var page := MismatchedRefs(requested, token, filter);
      var scan := ScanDetails(page);
      rows := Assemble(page, scan);
      assert RefsOf(rows) == page;
      MismatchRows(Snapshot(states, details), requested, token, filter, rows);
    }
  }
}
