/** Laws of the matcher that span its functions: order (in)dependence, agreement of the
    strategies, error bounds, and monotonicity in time and data. */
module MatcherLaws {
  import opened Wrappers
  import opened Rules
  import opened Matcher
  import opened Clustering

  function ExactOutcome(ps: seq<ParsedRecord>): Outcome {
    Verdict(ps, ExactFlags(ps), ExactDiffers)
  }

  function ToleranceOutcome(ps: seq<ParsedRecord>, t: Tolerance): Outcome {
    Verdict(ps, ToleranceFlags(ps, t), ToleranceExceeded)
  }

  function MajorityOutcome(ps: seq<ParsedRecord>, t: Tolerance): Outcome {
    Verdict(ps, MajorityFlags(ps, t), MajorityOutliers)
  }

  ghost predicate HasAmount(ps: seq<ParsedRecord>, a: int) {
    exists i :: 0 <= i < |ps| && ps[i].amount == Some(a)
  }

  ghost predicate AllHaveAmounts(ps: seq<ParsedRecord>) {
    forall i :: 0 <= i < |ps| ==> ps[i].amount.Some?
  }

  // ---------------------------------------------------------------- currency

  /** The check fires iff two present currencies differ, whatever the order. */
  lemma CurrencyConflictIff(ps: seq<ParsedRecord>)
    ensures CurrencyConflict(ps) <==>
      exists i, j :: 0 <= i < |ps| && 0 <= j < |ps|
        && ps[i].view.currency.Some? && ps[j].view.currency.Some? && ps[i].view.currency != ps[j].view.currency
  {}

  // ---------------------------------------------------------------- exact strategy

  /** MATCHED iff all present amounts are numerically equal. */
  lemma ExactMatchedIff(ps: seq<ParsedRecord>)
    ensures ExactOutcome(ps).Matched? <==> forall a, b :: HasAmount(ps, a) && HasAmount(ps, b) ==> a == b
  {
    var first, flags := FirstAmount(ps), ExactFlags(ps);
    if forall i :: 0 <= i < |flags| ==> !flags[i] {
      forall a, b | HasAmount(ps, a) && HasAmount(ps, b) ensures a == b {
        var i :| 0 <= i < |ps| && ps[i].amount == Some(a);
        var j :| 0 <= j < |ps| && ps[j].amount == Some(b);
        assert !flags[i] && !flags[j];
      }
    } else {
      var i :| 0 <= i < |flags| && flags[i];
      assert HasAmount(ps, ps[i].amount.value);
      var k: int :| FirstAmountAt(ps, k) && ps[k].amount == first;
      assert HasAmount(ps, first.value);
    }
  }

  // ---------------------------------------------------------------- tolerance strategy

  ghost predicate IsLeast(ps: seq<ParsedRecord>, lo: int) {
    HasAmount(ps, lo) && forall a :: HasAmount(ps, a) ==> lo <= a
  }

  ghost predicate IsGreatest(ps: seq<ParsedRecord>, hi: int) {
    HasAmount(ps, hi) && forall a :: HasAmount(ps, a) ==> a <= hi
  }

  /** Where acceptance is an interval: pct at most 100% or at least 200%, or no negative amount. */
  ghost predicate IntervalRegime(ps: seq<ParsedRecord>, t: Tolerance) {
    t.pct <= PCT_SCALE || 2 * PCT_SCALE <= t.pct || forall a :: HasAmount(ps, a) ==> 0 <= a
  }

  lemma ToleranceMatchedIff(ps: seq<ParsedRecord>, t: Tolerance, r: int)
    requires FirstAmount(ps) == Some(r)
    ensures ToleranceOutcome(ps, t).Matched? <==> forall a :: HasAmount(ps, a) ==> Within(t, a, r)
  {}

  /** Against reference r the scan is MATCHED iff the extreme amounts are within tolerance of r. */
  lemma ToleranceByExtremes(ps: seq<ParsedRecord>, t: Tolerance, r: int, lo: int, hi: int)
    requires FirstAmount(ps) == Some(r) && IsLeast(ps, lo) && IsGreatest(ps, hi)
    requires IntervalRegime(ps, t)
    ensures ToleranceOutcome(ps, t).Matched? <==> Within(t, lo, r) && Within(t, hi, r)
  {
    ToleranceMatchedIff(ps, t, r);
    var k: int :| FirstAmountAt(ps, k) && ps[k].amount == Some(r);
    assert HasAmount(ps, r);
    if Within(t, lo, r) && Within(t, hi, r) {
      forall a | HasAmount(ps, a) ensures Within(t, a, r) { WithinConvex(t, r, lo, a, hi); }
    }
  }

  /** The extremes decide the scan, for all records of whatever sign. */
  ghost predicate ExtremesDecide(t: Tolerance) {
    forall ps, r, lo, hi ::
      FirstAmount(ps) == Some(r) && IsLeast(ps, lo) && IsGreatest(ps, hi) && Within(t, lo, r) && Within(t, hi, r)
      ==> ToleranceOutcome(ps, t).Matched?
  }

  /** That holds exactly for percentages up to 100% and from 200% on; in between, a negative
      reference accepts both extremes but not an amount between them. */
  lemma ExtremesDecideIff(t: Tolerance)
    ensures ExtremesDecide(t) <==> t.pct <= PCT_SCALE || 2 * PCT_SCALE <= t.pct
  {
    if t.pct <= PCT_SCALE || 2 * PCT_SCALE <= t.pct {
      forall ps, r, lo, hi | FirstAmount(ps) == Some(r) && IsLeast(ps, lo) && IsGreatest(ps, hi)
          && Within(t, lo, r) && Within(t, hi, r)
        ensures ToleranceOutcome(ps, t).Matched?
      {
        ToleranceByExtremes(ps, t, r, lo, hi);
      }
    } else {
      var r, x, hi := ConvexityGap(t);
      var ps := ThreeRecords(r, x, hi);
      assert IsLeast(ps, r) && IsGreatest(ps, hi);
      ToleranceMatchedIff(ps, t, r);
    }
  }

  /** Three sources that report the amounts a, b and c. */
  lemma ThreeRecords(a: int, b: int, c: int) returns (ps: seq<ParsedRecord>)
    ensures forall x :: HasAmount(ps, x) <==> x in {a, b, c}
    ensures FirstAmount(ps) == Some(a)
  {
    var rec := (s: Source, x: int) => ParsedRecord(RecordView(s, s, Some(Decimal(x)), None, None, 0), Some(x));
    ps := [rec(1, a), rec(2, b), rec(3, c)];
    assert ps[0].amount == Some(a) && ps[1].amount == Some(b) && ps[2].amount == Some(c);
  }

  /** Two orders of the same records. */
  ghost predicate SameRecords(ps: seq<ParsedRecord>, qs: seq<ParsedRecord>) {
    multiset(ps) == multiset(qs)
  }

  lemma SameRecordsSameAmounts(ps: seq<ParsedRecord>, qs: seq<ParsedRecord>, a: int)
    requires SameRecords(ps, qs)
    ensures HasAmount(ps, a) <==> HasAmount(qs, a)
  {
    if HasAmount(ps, a) {
      var i :| 0 <= i < |ps| && ps[i].amount == Some(a);
      assert ps[i] in multiset(qs);
    }
    if HasAmount(qs, a) {
      var i :| 0 <= i < |qs| && qs[i].amount == Some(a);
      assert qs[i] in multiset(ps);
    }
  }

  /** Some order puts a given amount first. */
  lemma AmountFirst(ps: seq<ParsedRecord>, a: int) returns (qs: seq<ParsedRecord>)
    requires HasAmount(ps, a)
    ensures SameRecords(ps, qs) && FirstAmount(qs) == Some(a)
  {
    var i :| 0 <= i < |ps| && ps[i].amount == Some(a);
    qs := [ps[i]] + (ps[..i] + ps[i + 1..]);
    assert ps == ps[..i] + ([ps[i]] + ps[i + 1..]);
    assert qs[0] == ps[i];
  }

  lemma FirstAmountExists(ps: seq<ParsedRecord>, a: int) returns (r: int)
    requires HasAmount(ps, a)
    ensures FirstAmount(ps) == Some(r) && HasAmount(ps, r)
  {
    var i :| 0 <= i < |ps| && ps[i].amount == Some(a);
    r := FirstAmount(ps).value;
    var k: int :| FirstAmountAt(ps, k) && ps[k].amount == Some(r);
  }

  ghost predicate MatchedInEveryOrder(ps: seq<ParsedRecord>, t: Tolerance) {
    forall qs :: SameRecords(ps, qs) ==> ToleranceOutcome(qs, t).Matched?
  }

  /** MATCHED under every iteration order iff the extremes are within tolerance of each other. */
  lemma MatchedInEveryOrderIff(ps: seq<ParsedRecord>, t: Tolerance, lo: int, hi: int)
    requires IsLeast(ps, lo) && IsGreatest(ps, hi) && IntervalRegime(ps, t)
    ensures MatchedInEveryOrder(ps, t) <==> Within(t, lo, hi)
  {
    if MatchedInEveryOrder(ps, t) {
      var qs := AmountFirst(ps, lo);
      SameRecordsSameAmounts(ps, qs, hi);
      ToleranceMatchedIff(qs, t, lo);
      WithinSymmetric(t, lo, hi);
    }
    if Within(t, lo, hi) {
      forall qs | SameRecords(ps, qs) ensures ToleranceOutcome(qs, t).Matched? {
        ExtremesWithinSuffice(ps, qs, t, lo, hi);
      }
    }
  }

  lemma ExtremesWithinSuffice(ps: seq<ParsedRecord>, qs: seq<ParsedRecord>, t: Tolerance, lo: int, hi: int)
    requires IsLeast(ps, lo) && IsGreatest(ps, hi) && IntervalRegime(ps, t)
    requires Within(t, lo, hi) && SameRecords(ps, qs)
    ensures ToleranceOutcome(qs, t).Matched?
  {
    SameRecordsSameAmounts(ps, qs, lo);
    var r := FirstAmountExists(qs, lo);
    ToleranceMatchedIff(qs, t, r);
    forall a | HasAmount(qs, a) ensures Within(t, a, r) {
      SameRecordsSameAmounts(ps, qs, a);
      SameRecordsSameAmounts(ps, qs, r);
      WithinSymmetric(t, lo, hi);
      WithinReflexive(t, lo);
      WithinReflexive(t, hi);
      WithinConvex(t, lo, lo, r, hi);  // r near lo
      WithinConvex(t, hi, lo, r, hi);  // r near hi
      WithinSymmetric(t, r, lo);
      WithinSymmetric(t, r, hi);
      WithinConvex(t, r, lo, a, hi);
    }
  }

  ghost predicate SameInEveryOrder(ps: seq<ParsedRecord>, t: Tolerance) {
    forall qs :: SameRecords(ps, qs) ==> (ToleranceOutcome(qs, t).Matched? <==> ToleranceOutcome(ps, t).Matched?)
  }

  predicate AcceptsBoth(t: Tolerance, r: int, lo: int, hi: int) { Within(t, lo, r) && Within(t, hi, r) }

  /** With amount r first, the verdict says whether r accepts both extremes. */
  lemma FirstDecides(ps: seq<ParsedRecord>, t: Tolerance, lo: int, hi: int, r: int) returns (qs: seq<ParsedRecord>)
    requires IsLeast(ps, lo) && IsGreatest(ps, hi) && IntervalRegime(ps, t) && HasAmount(ps, r)
    ensures SameRecords(ps, qs) && (ToleranceOutcome(qs, t).Matched? <==> AcceptsBoth(t, r, lo, hi))
  {
    qs := AmountFirst(ps, r);
    SameAmounts(ps, qs);
    ToleranceByExtremes(qs, t, r, lo, hi);
  }

  /** The verdict is the same under every iteration order iff the extremes are within tolerance of
      each other (always MATCHED) or no reported amount accepts both of them (never MATCHED). */
  lemma SameInEveryOrderIff(ps: seq<ParsedRecord>, t: Tolerance, lo: int, hi: int)
    requires IsLeast(ps, lo) && IsGreatest(ps, hi) && IntervalRegime(ps, t)
    ensures SameInEveryOrder(ps, t) <==>
      Within(t, lo, hi) || forall r :: HasAmount(ps, r) ==> !AcceptsBoth(t, r, lo, hi)
  {
    MatchedInEveryOrderIff(ps, t, lo, hi);
    if Within(t, lo, hi) {
      assert ToleranceOutcome(ps, t).Matched?;
    } else if forall r :: HasAmount(ps, r) ==> !AcceptsBoth(t, r, lo, hi) {
      forall qs | SameRecords(ps, qs) ensures !ToleranceOutcome(qs, t).Matched? {
        SameAmounts(ps, qs);
        var r := FirstAmountExists(qs, lo);
        ToleranceByExtremes(qs, t, r, lo, hi);
      }
    } else {
      var r :| HasAmount(ps, r) && AcceptsBoth(t, r, lo, hi);
      var matched := FirstDecides(ps, t, lo, hi, r);
      var other := FirstDecides(ps, t, lo, hi, lo);
      WithinSymmetric(t, lo, hi);
    }
  }

  /** Over all records: the order never matters to the scan iff tolerance is an equivalence, that is
      in the two extreme configurations. */
  lemma ToleranceOrderIndependentIff(t: Tolerance)
    ensures (forall ps :: SameInEveryOrder(ps, t)) <==> AllOrNothing(t)
  {
    TransitiveIff(t);
    if AllOrNothing(t) {
      forall ps ensures SameInEveryOrder(ps, t) {
        forall qs | SameRecords(ps, qs) ensures ToleranceOutcome(qs, t).Matched? <==> ToleranceOutcome(ps, t).Matched? {
          TransitiveKeepsMatched(ps, qs, t);
          TransitiveKeepsMatched(qs, ps, t);
        }
      }
    } else {
      var low, middle, high := Intransitive(t);
      MiddleDecidesScan(t, low, middle, high);
    }
  }

  lemma TransitiveKeepsMatched(ps: seq<ParsedRecord>, qs: seq<ParsedRecord>, t: Tolerance)
    requires Transitive(t) && SameRecords(ps, qs)
    ensures ToleranceOutcome(ps, t).Matched? ==> ToleranceOutcome(qs, t).Matched?
  {
    SameAmounts(ps, qs);
    if ToleranceOutcome(ps, t).Matched? && FirstAmount(qs).Some? {
      var q := FirstAmount(qs).value;
      var k: int :| FirstAmountAt(qs, k) && qs[k].amount == Some(q);
      assert HasAmount(qs, q);
      var r := FirstAmountExists(ps, q);
      ToleranceMatchedIff(ps, t, r);
      ToleranceMatchedIff(qs, t, q);
      WithinSymmetric(t, q, r);
    }
  }

  lemma MiddleDecidesScan(t: Tolerance, low: int, middle: int, high: int)
    requires Within(t, low, middle) && Within(t, middle, high) && !Within(t, low, high)
    ensures exists ps :: !SameInEveryOrder(ps, t)
  {
    hide Within, ToleranceOutcome, HasAmount, FirstAmount;
    var three := ThreeRecords(low, middle, high);
    assert HasAmount(three, low) && HasAmount(three, middle) && HasAmount(three, high);
    var ps := AmountFirst(three, middle);
    var qs := AmountFirst(three, low);
    SameAmounts(three, ps);
    SameAmounts(three, qs);
    WithinReflexive(t, middle);
    WithinSymmetric(t, middle, high);
    WithinSymmetric(t, low, high);
    ToleranceMatchedIff(ps, t, middle);
    ToleranceMatchedIff(qs, t, low);
    assert !SameInEveryOrder(ps, t);
  }

  /** The verdict does depend on the order when the extremes are too far apart. */
  lemma ToleranceDependsOnOrder() returns (ps: seq<ParsedRecord>, qs: seq<ParsedRecord>, t: Tolerance)
    ensures SameRecords(ps, qs) && ToleranceOutcome(ps, t).Matched? && !ToleranceOutcome(qs, t).Matched?
  {
    t := Tolerance(5, 0);
    var three := ThreeRecords(0, 5, 10);
    ps := AmountFirst(three, 5);
    qs := AmountFirst(three, 0);
    WithinFive();
    SameAmounts(three, ps);
    SameAmounts(three, qs);
    ToleranceMatchedIff(ps, t, 5);
    ToleranceMatchedIff(qs, t, 0);
    assert HasAmount(qs, 10);
  }

  lemma SameAmounts(ps: seq<ParsedRecord>, qs: seq<ParsedRecord>)
    requires SameRecords(ps, qs)
    ensures forall a :: HasAmount(ps, a) <==> HasAmount(qs, a)
  {
    forall a ensures HasAmount(ps, a) <==> HasAmount(qs, a) { SameRecordsSameAmounts(ps, qs, a); }
  }

  lemma WithinFive()
    ensures var t := Tolerance(5, 0); Within(t, 0, 5) && Within(t, 5, 5) && Within(t, 10, 5) && !Within(t, 10, 0)
  {}

  /** Any two amounts of a MATCHED tolerance verdict differ by at most twice the tolerance. */
  lemma ToleranceErrorBound(ps: seq<ParsedRecord>, t: Tolerance, a: int, b: int, m: nat)
    requires ToleranceOutcome(ps, t).Matched? && HasAmount(ps, a) && HasAmount(ps, b)
    requires forall x :: HasAmount(ps, x) ==> Abs(x) <= m
    ensures Abs(a - b) * PCT_SCALE <= 2 * Max(t.absolute * PCT_SCALE, m * t.pct)
  {
    var r := FirstAmountExists(ps, a);
    ToleranceMatchedIff(ps, t, r);
    CommonReferenceBound(t, a, b, r, m);
  }

  // ---------------------------------------------------------------- agreement of the strategies

  /** Equal amounts are within tolerance, so Exact MATCHED implies Tolerance MATCHED. */
  lemma ExactImpliesTolerance(ps: seq<ParsedRecord>, t: Tolerance)
    requires ExactOutcome(ps).Matched?
    ensures ToleranceOutcome(ps, t).Matched?
  {}

  /** With all amounts present, the first bucket holds exactly the records the scan accepts. */
  lemma {:induction false} FirstBucketIsScan(ps: seq<ParsedRecord>, t: Tolerance, n: nat)
    requires AllHaveAmounts(ps) && 0 < n <= |ps|
    ensures var buckets := FirstFit(t, AmountsOf(ps), n);
      && 0 < |buckets| && buckets[0][0] == 0
      && forall i: nat :: i < n ==> (i in buckets[0] <==> Within(t, ps[i].amount.value, ps[0].amount.value))
  {
    hide Within;
    var amts := AmountsOf(ps);
    if n == 1 {
      assert FirstFit(t, amts, 0) == [];
      assert FirstFit(t, amts, 1) == [[0]];
      WithinReflexive(t, ps[0].amount.value);
    } else {
      FirstBucketIsScan(ps, t, n - 1);
      var before := FirstFit(t, amts, n - 1);
      assert Fits(t, amts, before[0], n - 1) <==> Within(t, ps[n - 1].amount.value, ps[0].amount.value);
      assert Fits(t, amts, before[0], n - 1) <==> FirstFitting(t, amts, before, n - 1, 0) == 0;
      assert n - 1 !in before[0];
    }
  }

  /** Tolerance flags exactly the complement of the first bucket, and is MATCHED iff first fit
      yields one bucket. */
  lemma ToleranceIsOneBucket(ps: seq<ParsedRecord>, t: Tolerance)
    requires AllHaveAmounts(ps) && ps != []
    ensures var buckets := FirstFit(t, AmountsOf(ps), |ps|);
      && 0 < |buckets|
      && (forall i: nat :: i < |ps| ==> (ToleranceFlags(ps, t)[i] <==> i !in buckets[0]))
      && (ToleranceOutcome(ps, t).Matched? <==> |buckets| == 1)
  {
    var buckets, flags := FirstFit(t, AmountsOf(ps), |ps|), ToleranceFlags(ps, t);
    FirstBucketIsScan(ps, t, |ps|);
    FirstFitIsFirstFit(t, AmountsOf(ps), |ps|);
    assert FirstAmount(ps) == ps[0].amount;
    if |buckets| == 1 {
      forall i: nat | i < |ps| ensures !flags[i] {
        assert Placed(buckets, i);
        var b: nat :| InBucket(buckets, b, i);
      }
    } else {
      var i := buckets[1][0];
      assert InBucket(buckets, 1, i);
      assert !InBucket(buckets, 0, i);
      assert flags[i];
    }
  }

  lemma ToleranceImpliesMajority(ps: seq<ParsedRecord>, t: Tolerance)
    requires AllHaveAmounts(ps) && ToleranceOutcome(ps, t).Matched?
    ensures MajorityOutcome(ps, t).Matched?
  {
    if ps != [] {
      ToleranceIsOneBucket(ps, t);
      MajorityMatchedIff(ps, t);
    }
  }

  // ---------------------------------------------------------------- decided, never undecided

  ghost predicate OldEnough(rows: seq<RecordView>, rules: RuleSet, now: int) {
    exists i :: 0 <= i < |rows| && AgeSecs(now, rows[i].receivedAt) >= rules.pendingTimeoutSecs
  }

  ghost predicate SourcesComplete(rows: seq<RecordView>, rules: RuleSet) {
    && (forall e :: e in rules.expectedSources ==> HasSource(rows, e))
    && (exists i, j :: 0 <= i < |rows| && 0 <= j < |rows| && rows[i].source != rows[j].source)
  }

  /** The rows and the clock leave the matcher no PENDING answer: all expected and at least two
      sources are there, or the pending timeout has passed. */
  ghost predicate Decided(rows: seq<RecordView>, rules: RuleSet, now: int) {
    SourcesComplete(rows, rules) || OldEnough(rows, rules, now)
  }

  /** More records and later times keep a decision possible. */
  lemma DecidedMonotone(rows: seq<RecordView>, more: seq<RecordView>, rules: RuleSet, now: int, later: int)
    requires forall r :: r in rows ==> r in more
    requires now <= later
    requires Decided(rows, rules, now)
    ensures Decided(more, rules, later)
  {
    if OldEnough(rows, rules, now) {
      var i :| 0 <= i < |rows| && AgeSecs(now, rows[i].receivedAt) >= rules.pendingTimeoutSecs;
      assert rows[i] in more;
      var k :| 0 <= k < |more| && more[k] == rows[i];
      assert AgeSecs(later, more[k].receivedAt) >= AgeSecs(now, more[k].receivedAt);
    } else {
      forall e | e in rules.expectedSources ensures HasSource(more, e) {
        assert HasSource(rows, e);
        var i :| 0 <= i < |rows| && rows[i].source == e;
        assert rows[i] in more;
      }
      var i, j :| 0 <= i < |rows| && 0 <= j < |rows| && rows[i].source != rows[j].source;
      assert rows[i] in more && rows[j] in more;
    }
  }

  /** The earliest arrival of the rows, as `reconcile_one` computes it. */
  function FirstSeen(rows: seq<RecordView>): (t: int)
    requires rows != []
    ensures forall i :: 0 <= i < |rows| ==> t <= rows[i].receivedAt
    ensures exists i :: 0 <= i < |rows| && rows[i].receivedAt == t
  {
    if |rows| == 1 then rows[0].receivedAt else
    var rest := FirstSeen(rows[1..]);
    assert forall i :: 1 <= i < |rows| ==> rows[i] == rows[1..][i - 1];
    if rows[0].receivedAt <= rest then
      rows[0].receivedAt
    else
      assert exists i :: 0 <= i < |rows| && rows[i].receivedAt == rest by {
        var i :| 0 <= i < |rows[1..]| && rows[1..][i].receivedAt == rest;
        assert rows[i + 1].receivedAt == rest;
      }
      rest
  }

  lemma ListingSources(unique: seq<RecordView>, rows: seq<RecordView>, s: Source)
    requires IsListing(unique, rows)
    ensures HasSource(unique, s) <==> HasSource(rows, s)
  {}

  lemma ListingComplete(unique: seq<RecordView>, rows: seq<RecordView>, rules: RuleSet)
    requires IsListing(unique, rows)
    ensures SourcesComplete(rows, rules) <==>
      2 <= |unique| && AllSourcesPresent(rules.expectedSources, PresentSources(unique))
  {
    forall e ensures HasSource(rows, e) <==> e in PresentSources(unique) {
      ListingSources(unique, rows, e);
      if HasSource(unique, e) {
        var i :| 0 <= i < |unique| && unique[i].source == e;
        assert PresentSources(unique)[i] == e;
      }
    }
    if 2 <= |unique| {
      assert IsLatest(unique[0], rows) && IsLatest(unique[1], rows);
      var i :| 0 <= i < |rows| && rows[i] == unique[0];
      var j :| 0 <= j < |rows| && rows[j] == unique[1];
      assert rows[i].source != rows[j].source;
    }
    forall i, j | 0 <= i < |rows| && 0 <= j < |rows| && rows[i].source != rows[j].source ensures 2 <= |unique| {
      assert HasSource(unique, rows[i].source);
      var a :| 0 <= a < |unique| && unique[a].source == rows[i].source;
      assert HasSource(unique, rows[j].source);
    }
  }

  /** The earliest row is the oldest. */
  lemma OldestIsFirst(rows: seq<RecordView>, rules: RuleSet, now: int)
    requires rows != []
    ensures OldEnough(rows, rules, now) <==> AgeSecs(now, FirstSeen(rows)) >= rules.pendingTimeoutSecs
  {
    var first := FirstSeen(rows);
    var k :| 0 <= k < |rows| && rows[k].receivedAt == first;
    assert forall i :: 0 <= i < |rows| ==> AgeSecs(now, rows[i].receivedAt) <= AgeSecs(now, first);
  }

  /** The matcher answers PENDING exactly when the rows and the clock leave it undecided. */
  lemma PendingIff(unique: seq<RecordView>, rows: seq<RecordView>, rules: RuleSet, now: int)
    requires IsListing(unique, rows) && rows != []
    ensures var r := Decide(unique, rules, FirstSeen(rows), now);
      (r.Ok? && r.outcome.Pending?) <==> !Decided(rows, rules, now)
  {
    ListingEmptyIff(unique, rows);
    ListingComplete(unique, rows, rules);
    OldestIsFirst(rows, rules, now);
    hide IsListing, SourcesComplete, OldEnough, AgeSecs, FirstSeen, ParseAmounts, CurrencyConflict, CompareAmounts;
  }

  /** Once decided on some records at some time, never PENDING again on more records later. */
  lemma OnceDecidedNeverPending(
    unique: seq<RecordView>, rows: seq<RecordView>, now: int,
    unique': seq<RecordView>, rows': seq<RecordView>, later: int, rules: RuleSet)
    requires IsListing(unique, rows) && IsListing(unique', rows') && rows != []
    requires forall r :: r in rows ==> r in rows'
    requires now <= later
    requires Decide(unique, rules, FirstSeen(rows), now).Ok?
    requires !Decide(unique, rules, FirstSeen(rows), now).outcome.Pending?
    ensures rows' != []
    ensures var r := Decide(unique', rules, FirstSeen(rows'), later); r.InvalidAmount? || !r.outcome.Pending?
  {
    assert rows[0] in rows';
    PendingIff(unique, rows, rules, now);
    DecidedMonotone(rows, rows', rules, now, later);
    PendingIff(unique', rows', rules, later);
  }

  // ---------------------------------------------------------------- order of the hash map

  lemma LatestIsUnique(r: RecordView, q: RecordView, rows: seq<RecordView>)
    requires IsLatest(r, rows) && IsLatest(q, rows) && r.source == q.source
    ensures r == q
  {}

  /** Two listings of the same rows hold the same records. */
  lemma ListingsAgree(u: seq<RecordView>, v: seq<RecordView>, rows: seq<RecordView>, i: nat) returns (j: nat)
    requires IsListing(u, rows) && IsListing(v, rows) && i < |u|
    ensures j < |v| && v[j] == u[i]
  {
    assert IsLatest(u[i], rows);
    assert HasSource(rows, u[i].source);
    ListingSources(v, rows, u[i].source);
    j :| 0 <= j < |v| && v[j].source == u[i].source;
    assert IsLatest(v[j], rows);
    LatestIsUnique(u[i], v[j], rows);
  }

  ghost predicate SameVerdict(r: MatchResult, q: MatchResult) {
    if r.Ok? then q.Ok? && q.outcome.Status() == r.outcome.Status() else q.InvalidAmount?
  }

  lemma ParsedRecordsAgree(u: seq<RecordView>, v: seq<RecordView>, rows: seq<RecordView>)
    requires IsListing(u, rows) && IsListing(v, rows)
    requires ParseAmounts(u).Some?
    ensures ParseAmounts(v).Some?
    ensures forall p :: p in ParseAmounts(u).value <==> p in ParseAmounts(v).value
  {
    forall i: nat | i < |v| ensures Parses(v[i]) { var j := ListingsAgree(v, u, rows, i); }
    ParsedIncluded(u, v, rows);
    ParsedIncluded(v, u, rows);
  }

  lemma ParsedIncluded(u: seq<RecordView>, v: seq<RecordView>, rows: seq<RecordView>)
    requires IsListing(u, rows) && IsListing(v, rows) && ParseAmounts(u).Some? && ParseAmounts(v).Some?
    ensures forall p :: p in ParseAmounts(u).value ==> p in ParseAmounts(v).value
  {
    var ps, qs := ParseAmounts(u).value, ParseAmounts(v).value;
    hide IsListing, Parses;
    forall p | p in ps ensures p in qs {
      var i: nat :| i < |ps| && ps[i] == p;
      var j := ListingsAgree(u, v, rows, i);
      assert qs[j] == p;
    }
  }

  lemma SameSetSameExact(ps: seq<ParsedRecord>, qs: seq<ParsedRecord>)
    requires forall p :: p in ps <==> p in qs
    ensures ExactOutcome(ps).Status() == ExactOutcome(qs).Status()
    ensures CurrencyConflict(ps) <==> CurrencyConflict(qs)
  {
    ExactMatchedIff(ps);
    ExactMatchedIff(qs);
    forall a ensures HasAmount(ps, a) <==> HasAmount(qs, a) {
      if HasAmount(ps, a) {
        var i :| 0 <= i < |ps| && ps[i].amount == Some(a);
        assert ps[i] in qs;
      }
      if HasAmount(qs, a) {
        var i :| 0 <= i < |qs| && qs[i].amount == Some(a);
        assert qs[i] in ps;
      }
    }
    ConflictFollows(ps, qs);
    ConflictFollows(qs, ps);
  }

  lemma ConflictFollows(ps: seq<ParsedRecord>, qs: seq<ParsedRecord>)
    requires forall p :: p in ps ==> p in qs
    ensures CurrencyConflict(ps) ==> CurrencyConflict(qs)
  {
    CurrencyConflictIff(ps);
    CurrencyConflictIff(qs);
    if CurrencyConflict(ps) {
      var i, j :| 0 <= i < |ps| && 0 <= j < |ps|
        && ps[i].view.currency.Some? && ps[j].view.currency.Some? && ps[i].view.currency != ps[j].view.currency;
      assert ps[i] in qs && ps[j] in qs;
    }
  }

  predicate StatusIs(r: MatchResult, s: Status) { r.Ok? && r.outcome.Status() == s }

  /** What the gates answer when they do not let the comparison start. */
  function GateStatus(rules: RuleSet, firstSeen: int, now: int): Status {
    if AgeSecs(now, firstSeen) >= rules.pendingTimeoutSecs then MISMATCHED else PENDING
  }

  function ExactStatus(ps: seq<ParsedRecord>): Status {
    if CurrencyConflict(ps) then MISMATCHED else ExactOutcome(ps).Status()
  }

  /** The status a complete listing gets under Exact, once its amounts parse. */
  lemma ExactDecision(u: seq<RecordView>, rows: seq<RecordView>, rules: RuleSet, firstSeen: int, now: int)
    requires IsListing(u, rows) && rows != [] && rules.strategy == ExactMatch
    ensures !SourcesComplete(rows, rules) ==> StatusIs(Decide(u, rules, firstSeen, now), GateStatus(rules, firstSeen, now))
    ensures SourcesComplete(rows, rules) && ParseAmounts(u).None? ==> Decide(u, rules, firstSeen, now).InvalidAmount?
    ensures SourcesComplete(rows, rules) && ParseAmounts(u).Some? ==>
      StatusIs(Decide(u, rules, firstSeen, now), ExactStatus(ParseAmounts(u).value))
  {
    ListingEmptyIff(u, rows);
    ListingComplete(u, rows, rules);
  }

  /** Under Exact, the answer's status is the same for every order out of the hash map. */
  lemma ExactOrderIndependent(u: seq<RecordView>, v: seq<RecordView>, rows: seq<RecordView>,
                              rules: RuleSet, firstSeen: int, now: int)
    requires IsListing(u, rows) && IsListing(v, rows) && rules.strategy == ExactMatch
    ensures SameVerdict(Decide(u, rules, firstSeen, now), Decide(v, rules, firstSeen, now))
  {
    ListingEmptyIff(u, rows);
    ListingEmptyIff(v, rows);
    if rows != [] {
      ExactDecision(u, rows, rules, firstSeen, now);
      ExactDecision(v, rows, rules, firstSeen, now);
      if ParseAmounts(u).Some? {
        ParsedRecordsAgree(u, v, rows);
        SameSetSameExact(ParseAmounts(u).value, ParseAmounts(v).value);
      } else if ParseAmounts(v).Some? {
        ParsedRecordsAgree(v, u, rows);
      }
    }
  }

  // ---------------------------------------------------------------- listings exist

  /** Every sequence of rows has a listing of its latest records. */
  lemma {:induction false} ListingExists(rows: seq<RecordView>) returns (u: seq<RecordView>)
    ensures IsListing(u, rows)
    decreases |rows|
  {
    if rows == [] {
      u := [];
    } else {
      var n := |rows| - 1;
      var before := ListingExists(rows[..n]);
      u := ListingStep(before, rows[..n], rows[n]);
      assert rows[..n] + [rows[n]] == rows;
    }
  }

  lemma LastIsLatest(rows: seq<RecordView>, q: RecordView)
    ensures IsLatest(q, rows + [q])
  {
    assert (rows + [q])[|rows|] == q;
  }

  lemma ListingStep(u: seq<RecordView>, rows: seq<RecordView>, q: RecordView) returns (v: seq<RecordView>)
    requires IsListing(u, rows)
    ensures IsListing(v, rows + [q])
  {
    var all := rows + [q];
    LastIsLatest(rows, q);
    hide IsLatest;
    if HasSource(u, q.source) {
      var i :| 0 <= i < |u| && u[i].source == q.source;
      v := u[i := q];
      assert v[i].source == q.source;
    } else {
      v := u + [q];
      assert v[|u|].source == q.source;
    }
    forall k | 0 <= k < |v| ensures IsLatest(v[k], all) {
      if v[k] != q { LatestExtends(u[k], rows, q); }
    }
    forall k | 0 <= k < |all| ensures HasSource(v, all[k].source) {
      if k < |rows| {
        assert HasSource(u, rows[k].source);
        var j :| 0 <= j < |u| && u[j].source == rows[k].source;
        assert v[j].source == all[k].source;
      }
    }
  }
}
