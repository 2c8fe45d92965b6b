/** The matcher (services/engine/src/engine/matcher.rs): latest record per source, gates,
    currency check, and the three amount strategies. */
module Matcher {
  import opened Wrappers
  import opened Rules

  /** The text of an amount column: a decimal, or text that does not parse. */
  datatype AmountText = Decimal(value: int) | Malformed

  type Payload = nat

  datatype RecordView = RecordView(
    internalId: nat,
    source: Source,
    amountText: Option<AmountText>,
    currency: Option<Currency>,
    payload: Option<Payload>,
    receivedAt: int)  // milliseconds

  datatype SourceResult = SourceResult(
    source: Source,
    internalId: nat,
    amount: Option<int>,
    currency: Option<Currency>,
    payload: Option<Payload>,
    discrepancy: bool)

  datatype Reason =
    | TimeoutMissingSources | TimeoutSingleSource | CurrencyMismatch
    | ExactDiffers | ToleranceExceeded | MajorityOutliers

  datatype Status = PENDING | MATCHED | MISMATCHED | RESOLVED

  datatype Outcome =
    | Matched(results: seq<SourceResult>)
    | Mismatched(results: seq<SourceResult>, reason: Reason)
    | Pending(recordCount: nat)
  {
    function Status(): Status {
      match this
      case Matched(_) => MATCHED
      case Mismatched(_, _) => MISMATCHED
      case Pending(_) => PENDING
    }

    function Results(): seq<SourceResult> {
      if Pending? then [] else results
    }

    function MatchedSources(): seq<Source> {
      if Matched? then SourcesOf(results) else []
    }

    function MismatchedSources(): seq<Source> {
      if Mismatched? then SourcesOf(Flagged(results)) else []
    }
  }

  /** The engine's only matching error: an amount that does not parse. */
  datatype MatchResult = Ok(outcome: Outcome) | InvalidAmount(source: Source)

  function SourcesOf(results: seq<SourceResult>): (r: seq<Source>)
    ensures |r| == |results|
    ensures forall i :: 0 <= i < |r| ==> r[i] == results[i].source
  {
    seq(|results|, i requires 0 <= i < |results| => results[i].source)
  }

  function Flagged(results: seq<SourceResult>): (r: seq<SourceResult>)
    ensures forall x :: x in r <==> x in results && x.discrepancy
  {
    if results == [] then []
    else if results[0].discrepancy then [results[0]] + Flagged(results[1..])
    else Flagged(results[1..])
  }

  // ---------------------------------------------------------------- latest record per source

  ghost predicate IsLatest(r: RecordView, rows: seq<RecordView>) {
    exists i {:trigger rows[i]} :: 0 <= i < |rows| && rows[i] == r
      && forall j :: i < j < |rows| ==> rows[j].source != r.source
  }

  /** `m` maps exactly the sources of `rows` to the last record each of them has there. */
  ghost predicate IsLatestMap(m: map<Source, RecordView>, rows: seq<RecordView>) {
    && (forall i :: 0 <= i < |rows| ==> rows[i].source in m)
    && (forall s :: s in m ==> m[s].source == s && IsLatest(m[s], rows))
  }

  lemma LatestExtends(r: RecordView, rows: seq<RecordView>, q: RecordView)
    requires IsLatest(r, rows) && q.source != r.source
    ensures IsLatest(r, rows + [q])
  {
    var i :| 0 <= i < |rows| && rows[i] == r && forall j :: i < j < |rows| ==> rows[j].source != r.source;
    assert (rows + [q])[i] == r;
  }

  lemma LatestMapExtends(m: map<Source, RecordView>, rows: seq<RecordView>, q: RecordView)
    requires IsLatestMap(m, rows)
    ensures IsLatestMap(m[q.source := q], rows + [q])
  {
    var after := m[q.source := q];
    assert (rows + [q])[|rows|] == q;
    forall s | s in after ensures after[s].source == s && IsLatest(after[s], rows + [q]) {
      if s != q.source { LatestExtends(m[s], rows, q); }
    }
  }

  /** The deduplicating loop: later rows of a source replace earlier ones. */
  method Dedup(rows: seq<RecordView>) returns (m: map<Source, RecordView>)
    ensures IsLatestMap(m, rows)
  {
    m := map[];
    for n := 0 to |rows|
      invariant IsLatestMap(m, rows[..n])
    {
      LatestMapExtends(m, rows[..n], rows[n]);
      m := m[rows[n].source := rows[n]];
      assert rows[..n + 1] == rows[..n] + [rows[n]];
    }
    assert rows[..|rows|] == rows;
  }

  ghost predicate HasSource(rows: seq<RecordView>, s: Source) {
    exists i :: 0 <= i < |rows| && rows[i].source == s
  }

  /** `unique` lists the latest record of every source once, in some order (hash-map order). */
  ghost predicate IsListing(unique: seq<RecordView>, rows: seq<RecordView>) {
    && (forall i :: 0 <= i < |unique| ==> IsLatest(unique[i], rows))
    && (forall i, j :: 0 <= i < j < |unique| ==> unique[i].source != unique[j].source)
    && (forall k :: 0 <= k < |rows| ==> HasSource(unique, rows[k].source))
  }

  function PresentSources(unique: seq<RecordView>): (r: seq<Source>)
    ensures |r| == |unique|
    ensures forall i :: 0 <= i < |r| ==> r[i] == unique[i].source
  {
    seq(|unique|, i requires 0 <= i < |unique| => unique[i].source)
  }

  /** Whole seconds since `firstSeen`, not below zero. */
  function AgeSecs(now: int, firstSeen: int): nat {
    if now < firstSeen then 0 else (now - firstSeen) / 1000
  }

  // ---------------------------------------------------------------- parsing

  datatype ParsedRecord = ParsedRecord(view: RecordView, amount: Option<int>)

  predicate Parses(r: RecordView) { r.amountText != Some(Malformed) }

  function AmountOf(r: RecordView): Option<int> {
    if r.amountText.Some? && r.amountText.value.Decimal? then Some(r.amountText.value.value) else None
  }

  /** Parse the records one after the other and stop at the first amount that does not parse: all
      of them parse, each to its own amount, or nothing is returned. */
  function ParseAmounts(unique: seq<RecordView>): (r: Option<seq<ParsedRecord>>)
    ensures r.Some? <==> forall i :: 0 <= i < |unique| ==> Parses(unique[i])
    ensures r.Some? ==> |r.value| == |unique|
    ensures r.Some? ==> forall i :: 0 <= i < |unique| ==> r.value[i] == ParsedRecord(unique[i], AmountOf(unique[i]))
  {
    if unique == [] then Some([])
    else if !Parses(unique[0]) then None
    else
      var rest := ParseAmounts(unique[1..]);
      assert forall i :: 1 <= i < |unique| ==> unique[i] == unique[1..][i - 1];
      if rest.None? then None else Some([ParsedRecord(unique[0], AmountOf(unique[0]))] + rest.value)
  }

  /** The source whose amount stopped the parsing: the first malformed one in listing order. */
  function FirstMalformed(unique: seq<RecordView>): (s: Source)
    requires exists i :: 0 <= i < |unique| && !Parses(unique[i])
    ensures exists i: int :: FirstMalformedAt(unique, i) && unique[i].source == s
  {
    if !Parses(unique[0]) then
      assert FirstMalformedAt(unique, 0);
      unique[0].source
    else
      assert exists i :: 0 <= i < |unique[1..]| && !Parses(unique[1..][i]) by {
        var i :| 0 <= i < |unique| && !Parses(unique[i]);
        assert unique[1..][i - 1] == unique[i];
      }
      var s := FirstMalformed(unique[1..]);
      assert exists i: int :: FirstMalformedAt(unique, i) && unique[i].source == s by {
        var i: int :| FirstMalformedAt(unique[1..], i) && unique[1..][i].source == s;
        assert forall j :: 0 <= j < i + 1 ==> j == 0 || unique[j] == unique[1..][j - 1];
        assert FirstMalformedAt(unique, i + 1);
      }
      s
  }

  ghost predicate FirstMalformedAt(unique: seq<RecordView>, i: int) {
    0 <= i < |unique| && !Parses(unique[i]) && forall j :: 0 <= j < i ==> Parses(unique[j])
  }

  // ---------------------------------------------------------------- results

  function ToSourceResult(p: ParsedRecord, discrepancy: bool): SourceResult {
    SourceResult(p.view.source, p.view.internalId, p.amount, p.view.currency, p.view.payload, discrepancy)
  }

  function ResultsWith(ps: seq<ParsedRecord>, flags: seq<bool>): (r: seq<SourceResult>)
    requires |flags| == |ps|
    ensures |r| == |ps|
    ensures forall i :: 0 <= i < |r| ==> r[i] == ToSourceResult(ps[i], flags[i])
  {
    seq(|ps|, i requires 0 <= i < |ps| => ToSourceResult(ps[i], flags[i]))
  }

  function Unflagged(n: nat): (r: seq<bool>)
    ensures |r| == n && forall i :: 0 <= i < n ==> !r[i]
  {
    seq(n, _ => false)
  }

  /** Any flag makes the verdict MISMATCHED; no flag makes it MATCHED. */
  function Verdict(ps: seq<ParsedRecord>, flags: seq<bool>, reason: Reason): (o: Outcome)
    requires |flags| == |ps|
    ensures o.Matched? <==> forall i :: 0 <= i < |flags| ==> !flags[i]
    ensures !o.Pending? && o.results == ResultsWith(ps, flags)
  {
    if true in flags then Mismatched(ResultsWith(ps, flags), reason)
    else Matched(ResultsWith(ps, flags))
  }

  // ---------------------------------------------------------------- currency check

  /** The first present currency, in listing order. */
  function FirstCurrency(ps: seq<ParsedRecord>): (c: Option<Currency>)
    ensures c.None? <==> forall i :: 0 <= i < |ps| ==> ps[i].view.currency.None?
    ensures c.Some? ==> exists i :: 0 <= i < |ps| && ps[i].view.currency == c
  {
    if ps == [] then None
    else if ps[0].view.currency.Some? then ps[0].view.currency
    else FirstCurrency(ps[1..])
  }

  predicate CurrencyConflict(ps: seq<ParsedRecord>) {
    var first := FirstCurrency(ps);
    first.Some? && exists i :: 0 <= i < |ps| && ps[i].view.currency.Some? && ps[i].view.currency != first
  }

  // ---------------------------------------------------------------- exact and tolerance strategies

  /** The reference amount: that of the first record which has one. */
  function FirstAmount(ps: seq<ParsedRecord>): (a: Option<int>)
    ensures a.None? <==> forall i :: 0 <= i < |ps| ==> ps[i].amount.None?
    ensures a.Some? ==> exists i: int :: FirstAmountAt(ps, i) && ps[i].amount == a
  {
    if ps == [] then None
    else if ps[0].amount.Some? then
      assert FirstAmountAt(ps, 0);
      ps[0].amount
    else
      var rest := FirstAmount(ps[1..]);
      assert rest.Some? ==> exists i: int :: FirstAmountAt(ps, i) && ps[i].amount == rest by {
        if rest.Some? {
          var i: int :| FirstAmountAt(ps[1..], i) && ps[1..][i].amount == rest;
          assert forall j :: 0 <= j < i + 1 ==> j == 0 || ps[j] == ps[1..][j - 1];
          assert FirstAmountAt(ps, i + 1);
        }
      }
      rest
  }

  ghost predicate FirstAmountAt(ps: seq<ParsedRecord>, i: int) {
    0 <= i < |ps| && ps[i].amount.Some? && forall j :: 0 <= j < i ==> ps[j].amount.None?
  }

  function ExactFlags(ps: seq<ParsedRecord>): (f: seq<bool>)
    ensures |f| == |ps|
  {
    var reference := FirstAmount(ps);
    seq(|ps|, i requires 0 <= i < |ps| => ps[i].amount.Some? && ps[i].amount != reference)
  }

  function ToleranceFlags(ps: seq<ParsedRecord>, t: Tolerance): (f: seq<bool>)
    ensures |f| == |ps|
  {
    var reference := FirstAmount(ps);
    if reference.None? then Unflagged(|ps|)
    else seq(|ps|, i requires 0 <= i < |ps| => ps[i].amount.Some? && !Within(t, ps[i].amount.value, reference.value))
  }

  method CompareExact(ps: seq<ParsedRecord>) returns (o: Outcome)
    ensures o == Verdict(ps, ExactFlags(ps), ExactDiffers)
  {
    var reference := FirstAmount(ps);
    if reference.None? {
      o := Matched(ResultsWith(ps, Unflagged(|ps|)));
      assert ExactFlags(ps) == Unflagged(|ps|);
      return;
    }
    ghost var flags := ExactFlags(ps);
    var anyMismatch, results := false, [];
    for i := 0 to |ps|
      invariant results == ResultsWith(ps, flags)[..i]
      invariant anyMismatch <==> true in flags[..i]
    {
      var discrepancy := ps[i].amount.Some? && ps[i].amount.value != reference.value;
      assert discrepancy == flags[i];
      if discrepancy { anyMismatch := true; }
      results := results + [ToSourceResult(ps[i], discrepancy)];
      assert flags[..i + 1] == flags[..i] + [flags[i]];
    }
    assert flags[..|ps|] == flags;
    assert results == ResultsWith(ps, flags);
    o := if anyMismatch then Mismatched(results, ExactDiffers) else Matched(results);
  }

  lemma VerdictOf(ps: seq<ParsedRecord>, flags: seq<bool>, reason: Reason, results: seq<SourceResult>, any: bool)
    requires |flags| == |results| == |ps|
    requires forall j :: 0 <= j < |ps| ==> results[j] == ToSourceResult(ps[j], flags[j])
    requires any <==> exists j :: 0 <= j < |ps| && flags[j]
    ensures (if any then Mismatched(results, reason) else Matched(results)) == Verdict(ps, flags, reason)
  {
    hide ToSourceResult;
    assert results == ResultsWith(ps, flags);
  }

  lemma ToleranceFlagAt(ps: seq<ParsedRecord>, t: Tolerance, i: nat)
    requires i < |ps|
    ensures ToleranceFlags(ps, t)[i] <==>
      FirstAmount(ps).Some? && ps[i].amount.Some? && !Within(t, ps[i].amount.value, FirstAmount(ps).value)
  {}

  method CompareWithTolerance(ps: seq<ParsedRecord>, t: Tolerance) returns (o: Outcome)
    ensures o == Verdict(ps, ToleranceFlags(ps, t), ToleranceExceeded)
  {
    hide Within, FirstAmount, ToleranceFlags, ResultsWith, ToSourceResult, Verdict;
    var reference := FirstAmount(ps);
    ghost var flags := ToleranceFlags(ps, t);
    if reference.None? {
      o := Matched(ResultsWith(ps, Unflagged(|ps|)));
      forall i: nat | i < |ps| ensures !flags[i] { ToleranceFlagAt(ps, t, i); }
      VerdictOf(ps, flags, ToleranceExceeded, o.results, false);
      return;
    }
    var anyMismatch, results := false, [];
    for i := 0 to |ps|
      invariant |results| == i && forall j :: 0 <= j < i ==> results[j] == ToSourceResult(ps[j], flags[j])
      invariant anyMismatch <==> exists j :: 0 <= j < i && flags[j]
    {
      var discrepancy := ps[i].amount.Some? && !Within(t, ps[i].amount.value, reference.value);
      ToleranceFlagAt(ps, t, i);
      if discrepancy { anyMismatch := true; }
      results := results + [ToSourceResult(ps[i], discrepancy)];
    }
    VerdictOf(ps, flags, ToleranceExceeded, results, anyMismatch);
    o := if anyMismatch then Mismatched(results, ToleranceExceeded) else Matched(results);
  }

  // ---------------------------------------------------------------- majority strategy

  type Amounts = seq<Option<int>>
  type Buckets = seq<seq<nat>>

  function AmountsOf(ps: seq<ParsedRecord>): (r: Amounts)
    ensures |r| == |ps| && forall i :: 0 <= i < |r| ==> r[i] == ps[i].amount
  {
    seq(|ps|, i requires 0 <= i < |ps| => ps[i].amount)
  }

  predicate BucketsOver(buckets: Buckets, n: nat) {
    forall b :: 0 <= b < |buckets| ==> buckets[b] != [] && forall i :: 0 <= i < |buckets[b]| ==> buckets[b][i] < n
  }

  predicate Fits(t: Tolerance, amts: Amounts, bucket: seq<nat>, i: nat)
    requires i < |amts| && bucket != [] && bucket[0] < |amts|
  {
    amts[i].Some? && amts[bucket[0]].Some? && Within(t, amts[i].value, amts[bucket[0]].value)
  }

  /** Index of the first bucket from `from` on that record `i` fits, or |buckets|. */
  function FirstFitting(t: Tolerance, amts: Amounts, buckets: Buckets, i: nat, from: nat): (b: nat)
    requires i < |amts| && BucketsOver(buckets, |amts|) && from <= |buckets|
    ensures from <= b <= |buckets|
    ensures b < |buckets| ==> Fits(t, amts, buckets[b], i)
    ensures forall a :: from <= a < b ==> !Fits(t, amts, buckets[a], i)
    decreases |buckets| - from
  {
    if from == |buckets| then from
    else if Fits(t, amts, buckets[from], i) then from
    else FirstFitting(t, amts, buckets, i, from + 1)
  }

  /** Add `i` to bucket `b`, or open a new bucket when there is no such bucket. */
  function Put(buckets: Buckets, b: nat, i: nat): Buckets
    requires b <= |buckets|
  {
    if b < |buckets| then buckets[b := buckets[b] + [i]] else buckets + [[i]]
  }

  /** First-fit clustering of the first n records. */
  function FirstFit(t: Tolerance, amts: Amounts, n: nat): (buckets: Buckets)
    requires n <= |amts|
    ensures BucketsOver(buckets, n)
  {
    if n == 0 then [] else
    var before := FirstFit(t, amts, n - 1);
    Put(before, FirstFitting(t, amts, before, n - 1, 0), n - 1)
  }

  function LargestSize(buckets: Buckets): (m: nat)
    ensures forall b :: 0 <= b < |buckets| ==> |buckets[b]| <= m
    ensures buckets != [] ==> exists b :: 0 <= b < |buckets| && |buckets[b]| == m
  {
    if buckets == [] then 0 else
    var rest := LargestSize(buckets[1..]);
    assert forall b :: 1 <= b < |buckets| ==> |buckets[b]| == |buckets[1..][b - 1]|;
    if rest <= |buckets[0]| then
      |buckets[0]|
    else
      assert exists b :: 0 <= b < |buckets| && |buckets[b]| == rest by {
        var b :| 0 <= b < |buckets[1..]| && |buckets[1..][b]| == rest;
        assert |buckets[b + 1]| == rest;
      }
      rest
  }

  /** Record i is in a bucket of the largest size; every such bucket wins, also when tied. */
  predicate IsWinner(buckets: Buckets, i: nat) {
    exists b :: 0 <= b < |buckets| && i in buckets[b] && |buckets[b]| == LargestSize(buckets)
  }

  function MajorityFlags(ps: seq<ParsedRecord>, t: Tolerance): (f: seq<bool>)
    ensures |f| == |ps|
  {
    var buckets := FirstFit(t, AmountsOf(ps), |ps|);
    seq(|ps|, i requires 0 <= i < |ps| => !IsWinner(buckets, i))
  }

  /** The inner loop: record i joins the first bucket whose head it is within tolerance of, and
      otherwise opens one; a record without amount always opens one. */
  method PlaceRecord(t: Tolerance, amts: Amounts, buckets: Buckets, i: nat) returns (after: Buckets)
    requires i < |amts| && BucketsOver(buckets, |amts|)
    ensures after == Put(buckets, FirstFitting(t, amts, buckets, i, 0), i)
  {
    if amts[i].None? {
      NoFit(t, amts, buckets, i, 0);
      return buckets + [[i]];
    }
    for b := 0 to |buckets|
      invariant FirstFitting(t, amts, buckets, i, 0) == FirstFitting(t, amts, buckets, i, b)
    {
      var head := buckets[b][0];
      if amts[head].Some? && Within(t, amts[i].value, amts[head].value) {
        return buckets[b := buckets[b] + [i]];
      }
    }
    return buckets + [[i]];
  }

  /** The bucketing loop over the records in order. */
  method BuildBuckets(t: Tolerance, amts: Amounts) returns (buckets: Buckets)
    ensures buckets == FirstFit(t, amts, |amts|)
  {
    buckets := [];
    for i := 0 to |amts|
      invariant buckets == FirstFit(t, amts, i)
    {
      buckets := PlaceRecord(t, amts, buckets, i);
    }
  }

  lemma NoFit(t: Tolerance, amts: Amounts, buckets: Buckets, i: nat, from: nat)
    requires i < |amts| && BucketsOver(buckets, |amts|) && from <= |buckets| && amts[i].None?
    ensures FirstFitting(t, amts, buckets, i, from) == |buckets|
    decreases |buckets| - from
  {}

  method LargestBucket(buckets: Buckets) returns (m: nat)
    ensures m == LargestSize(buckets)
  {
    m := 0;
    for b := 0 to |buckets|
      invariant forall a :: 0 <= a < b ==> |buckets[a]| <= m
      invariant b == 0 ==> m == 0
      invariant 0 < b ==> exists a :: 0 <= a < b && |buckets[a]| == m
    {
      if b == 0 || m < |buckets[b]| { m := |buckets[b]|; }
    }
  }

  method WinnerIndices(buckets: Buckets) returns (winners: set<nat>)
    ensures forall i :: i in winners <==> IsWinner(buckets, i)
  {
    var m := LargestBucket(buckets);
    winners := {};
    for b := 0 to |buckets|
      invariant forall i :: i in winners <==>
        exists a :: 0 <= a < b && i in buckets[a] && |buckets[a]| == m
    {
      if |buckets[b]| == m { winners := winners + (set i | i in buckets[b]); }
    }
  }

  method ReportLosers(ps: seq<ParsedRecord>, winners: set<nat>, ghost flags: seq<bool>) returns (o: Outcome)
    requires |flags| == |ps| && forall i :: 0 <= i < |ps| ==> flags[i] == (i !in winners)
    ensures o == Verdict(ps, flags, MajorityOutliers)
  {
    var anyLoser, results := false, [];
    for i := 0 to |ps|
      invariant results == ResultsWith(ps, flags)[..i]
      invariant anyLoser <==> true in flags[..i]
    {
      var discrepancy := i !in winners;
      if discrepancy { anyLoser := true; }
      results := results + [ToSourceResult(ps[i], discrepancy)];
      assert flags[..i + 1] == flags[..i] + [discrepancy];
    }
    assert flags[..|ps|] == flags;
    assert results == ResultsWith(ps, flags);
    o := if anyLoser then Mismatched(results, MajorityOutliers) else Matched(results);
  }

  method CompareMajority(ps: seq<ParsedRecord>, t: Tolerance) returns (o: Outcome)
    ensures o == Verdict(ps, MajorityFlags(ps, t), MajorityOutliers)
  {
    var buckets := BuildBuckets(t, AmountsOf(ps));
    var winners := WinnerIndices(buckets);
    o := ReportLosers(ps, winners, MajorityFlags(ps, t));
  }

  // ---------------------------------------------------------------- match_records

  function NoComparison(unique: seq<RecordView>): (r: seq<SourceResult>)
    ensures |r| == |unique|
    ensures forall i :: 0 <= i < |r| ==> r[i] == ToSourceResult(ParsedRecord(unique[i], AmountOf(unique[i])), false)
  {
    seq(|unique|, i requires 0 <= i < |unique| => ToSourceResult(ParsedRecord(unique[i], AmountOf(unique[i])), false))
  }

  function AllFlagged(n: nat): (r: seq<bool>)
    ensures |r| == n && forall i :: 0 <= i < n ==> r[i]
  {
    seq(n, _ => true)
  }

  /** The outcome reports the records with these flags, and is MATCHED iff none is set. */
  ghost predicate VerdictOn(o: Outcome, ps: seq<ParsedRecord>, flags: seq<bool>) {
    && |flags| == |ps| && !o.Pending? && o.results == ResultsWith(ps, flags)
    && (o.Matched? <==> forall i :: 0 <= i < |flags| ==> !flags[i])
  }

  function CompareAmounts(ps: seq<ParsedRecord>, rules: RuleSet): (o: Outcome)
    ensures !o.Pending? && |o.results| == |ps|
    ensures exists flags: seq<bool> :: VerdictOn(o, ps, flags)
  {
    match rules.strategy
    case ExactMatch =>
      var o := Verdict(ps, ExactFlags(ps), ExactDiffers);
      assert VerdictOn(o, ps, ExactFlags(ps));
      o
    case ToleranceMatch =>
      var o := Verdict(ps, ToleranceFlags(ps, rules.tolerance), ToleranceExceeded);
      assert VerdictOn(o, ps, ToleranceFlags(ps, rules.tolerance));
      o
    case MajorityMatch =>
      var o := Verdict(ps, MajorityFlags(ps, rules.tolerance), MajorityOutliers);
      assert VerdictOn(o, ps, MajorityFlags(ps, rules.tolerance));
      o
  }

  /** The decision for a listing of the latest records: gates, parsing, currency, amounts. */
  function Decide(unique: seq<RecordView>, rules: RuleSet, firstSeen: int, now: int): MatchResult {
    if unique == [] then Ok(Pending(0))
    else if !AllSourcesPresent(rules.expectedSources, PresentSources(unique)) then
      if AgeSecs(now, firstSeen) >= rules.pendingTimeoutSecs
      then Ok(Mismatched(NoComparison(unique), TimeoutMissingSources))
      else Ok(Pending(|unique|))
    else if |unique| < 2 then
      if AgeSecs(now, firstSeen) >= rules.pendingTimeoutSecs
      then Ok(Mismatched(NoComparison(unique), TimeoutSingleSource))
      else Ok(Pending(1))
    else
      var parsed := ParseAmounts(unique);
      if parsed.None? then InvalidAmount(FirstMalformed(unique))
      else if CurrencyConflict(parsed.value) then
        Ok(Mismatched(ResultsWith(parsed.value, AllFlagged(|unique|)), CurrencyMismatch))
      else Ok(CompareAmounts(parsed.value, rules))
  }

  /** Empty the hash map in whatever order it yields its values. */
  method IntoValues(deduped: map<Source, RecordView>, ghost rows: seq<RecordView>) returns (unique: seq<RecordView>)
    requires IsLatestMap(deduped, rows)
    ensures IsListing(unique, rows)
  {
    unique := [];
    var left := deduped.Keys;
    while left != {}
      invariant left <= deduped.Keys
      invariant forall i :: 0 <= i < |unique| ==> unique[i].source in deduped.Keys - left && IsLatest(unique[i], rows)
      invariant forall i, j :: 0 <= i < j < |unique| ==> unique[i].source != unique[j].source
      invariant forall s :: s in deduped.Keys - left ==> HasSource(unique, s)
      decreases left
    {
      var s :| s in left;
      ghost var was := unique;
      unique := unique + [deduped[s]];
      left := left - {s};
      forall x | x in deduped.Keys - left ensures HasSource(unique, x) {
        if x == s {
          assert unique[|was|].source == s;
        } else {
          assert HasSource(was, x);
          var i :| 0 <= i < |was| && was[i].source == x;
          assert unique[i].source == x;
        }
      }
    }
  }

  lemma ListingEmptyIff(unique: seq<RecordView>, rows: seq<RecordView>)
    requires IsListing(unique, rows)
    ensures unique == [] <==> rows == []
  {
    if rows != [] { assert HasSource(unique, rows[0].source); }
    if unique != [] { var first := unique[0]; assert IsLatest(first, rows); }
  }

  /** `unique` reports the order in which the hash map yielded the deduplicated records. */
  method MatchRecords(rows: seq<RecordView>, rules: RuleSet, firstSeen: int, now: int)
    returns (r: MatchResult, ghost unique: seq<RecordView>)
    ensures IsListing(unique, rows) && r == Decide(unique, rules, firstSeen, now)
    ensures exists u :: IsListing(u, rows) && r == Decide(u, rules, firstSeen, now)
  {
    var deduped := Dedup(rows);
    var values := IntoValues(deduped, rows);
    unique := values;
    ListingEmptyIff(unique, rows);
    if rows == [] { return Ok(Pending(0)), unique; }
    if !AllSourcesPresent(rules.expectedSources, PresentSources(values)) {
      if AgeSecs(now, firstSeen) >= rules.pendingTimeoutSecs {
        return Ok(Mismatched(NoComparison(values), TimeoutMissingSources)), unique;
      }
      return Ok(Pending(|values|)), unique;
    }
    if |values| < 2 {
      if AgeSecs(now, firstSeen) >= rules.pendingTimeoutSecs {
        return Ok(Mismatched(NoComparison(values), TimeoutSingleSource)), unique;
      }
      return Ok(Pending(1)), unique;
    }
    var parsed := ParseAmounts(values);
    if parsed.None? { return InvalidAmount(FirstMalformed(values)), unique; }
    if CurrencyConflict(parsed.value) {
      return Ok(Mismatched(ResultsWith(parsed.value, AllFlagged(|values|)), CurrencyMismatch)), unique;
    }
    var outcome;
    match rules.strategy {
      case ExactMatch => outcome := CompareExact(parsed.value);
      case ToleranceMatch => outcome := CompareWithTolerance(parsed.value, rules.tolerance);
      case MajorityMatch => outcome := CompareMajority(parsed.value, rules.tolerance);
    }
    return Ok(outcome), unique;
  }
}
