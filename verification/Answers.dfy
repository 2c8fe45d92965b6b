/** What the matcher answers, said without its intermediate steps: for each gate and each strategy the
    status, the reason, and the flag of every reported record
    (services/engine/src/engine/matcher.rs, match_records). */
module Answers {
  import opened Wrappers
  import opened Rules
  import opened Matcher
  import opened MatcherLaws
  import opened Clustering

  // ---------------------------------------------------------------- the records of a listing

  /** Every expected source has reported, and two at least have. */
  ghost predicate Comparable(unique: seq<RecordView>, rules: RuleSet) {
    2 <= |unique| && forall e :: e in rules.expectedSources ==> HasSource(unique, e)
  }

  ghost predicate WellFormed(unique: seq<RecordView>) {
    forall i :: 0 <= i < |unique| ==> unique[i].amountText != Some(Malformed)
  }

  ghost predicate FirstUnreadable(unique: seq<RecordView>, i: int) {
    && 0 <= i < |unique| && unique[i].amountText == Some(Malformed)
    && forall j :: 0 <= j < i ==> unique[j].amountText != Some(Malformed)
  }

  ghost predicate CurrenciesDiffer(unique: seq<RecordView>) {
    exists i, j :: 0 <= i < |unique| && 0 <= j < |unique|
      && unique[i].currency.Some? && unique[j].currency.Some? && unique[i].currency != unique[j].currency
  }

  /** Record i reports the amount a. */
  predicate ReportsAmount(unique: seq<RecordView>, i: int, a: int) {
    0 <= i < |unique| && unique[i].amountText == Some(Decimal(a))
  }

  /** The first amount reported, in listing order, is r. */
  ghost predicate Reference(unique: seq<RecordView>, r: int) {
    exists k :: ReportsAmount(unique, k, r) && forall j, a :: 0 <= j < k ==> !ReportsAmount(unique, j, a)
  }

  ghost predicate Differs(unique: seq<RecordView>, i: int) {
    exists a, r :: ReportsAmount(unique, i, a) && Reference(unique, r) && a != r
  }

  ghost predicate Outside(unique: seq<RecordView>, t: Tolerance, i: int) {
    exists a, r :: ReportsAmount(unique, i, a) && Reference(unique, r) && !Within(t, a, r)
  }

  /** Record i is in a bucket that is smaller than some other. */
  ghost predicate Outvoted(buckets: Buckets, i: nat) {
    exists a: nat, b: nat :: InBucket(buckets, b, i) && a < |buckets| && |buckets[b]| < |buckets[a]|
  }

  ghost predicate SizesDiffer(buckets: Buckets) {
    exists a, b :: 0 <= a < |buckets| && 0 <= b < |buckets| && |buckets[a]| != |buckets[b]|
  }

  /** Every record is reported, in listing order. */
  predicate Reports(o: Outcome, unique: seq<RecordView>) {
    && !o.Pending? && |o.results| == |unique|
    && forall i :: 0 <= i < |unique| ==>
      && o.results[i].source == unique[i].source && o.results[i].internalId == unique[i].internalId
      && o.results[i].currency == unique[i].currency && o.results[i].payload == unique[i].payload
      && (o.results[i].amount.Some? <==> unique[i].amountText.Some? && unique[i].amountText.value.Decimal?)
      && (o.results[i].amount.Some? ==> ReportsAmount(unique, i, o.results[i].amount.value))
  }

  // ---------------------------------------------------------------- before the comparison

  /** With a source missing, or a single one, the answer is PENDING until the timeout, in seconds since
      the first record, and then MISMATCHED with no record flagged. */
  lemma IncompleteAnswer(unique: seq<RecordView>, rules: RuleSet, firstSeen: int, now: int)
    requires !Comparable(unique, rules)
    ensures var r := Decide(unique, rules, firstSeen, now);
      var late := unique != [] && (rules.pendingTimeoutSecs == 0 || firstSeen + 1000 * rules.pendingTimeoutSecs <= now);
      && r.Ok? && (r.outcome.Pending? <==> !late) && (r.outcome.Pending? ==> r.outcome.recordCount == |unique|)
      && (late ==>
        && r.outcome.Mismatched? && Reports(r.outcome, unique)
        && (forall i :: 0 <= i < |unique| ==> !r.outcome.results[i].discrepancy)
        && (r.outcome.reason == TimeoutMissingSources || r.outcome.reason == TimeoutSingleSource)
        && (r.outcome.reason == TimeoutSingleSource <==> forall e :: e in rules.expectedSources ==> HasSource(unique, e)))
  {
    SourcesPresent(unique, rules);
  }

  lemma SourcesPresent(unique: seq<RecordView>, rules: RuleSet)
    ensures AllSourcesPresent(rules.expectedSources, PresentSources(unique))
      <==> forall e :: e in rules.expectedSources ==> HasSource(unique, e)
  {
    forall e ensures e in PresentSources(unique) <==> HasSource(unique, e) {
      if HasSource(unique, e) {
        var i :| 0 <= i < |unique| && unique[i].source == e;
        assert PresentSources(unique)[i] == e;
      }
    }
  }

  /** An amount that does not parse is an error that names the first such source. */
  lemma MalformedAnswer(unique: seq<RecordView>, rules: RuleSet, firstSeen: int, now: int)
    requires Comparable(unique, rules)
    ensures Decide(unique, rules, firstSeen, now).InvalidAmount? <==> !WellFormed(unique)
    ensures var r := Decide(unique, rules, firstSeen, now);
      r.InvalidAmount? ==> exists i :: FirstUnreadable(unique, i) && unique[i].source == r.source
  {
    SourcesPresent(unique, rules);
    hide CurrencyConflict, CompareAmounts;
    if !WellFormed(unique) {
      var m :| 0 <= m < |unique| && unique[m].amountText == Some(Malformed);
      assert !Parses(unique[m]);
      var s := FirstMalformed(unique);
      var i: int :| FirstMalformedAt(unique, i) && unique[i].source == s;
      assert FirstUnreadable(unique, i);
    } else {
      assert forall i :: 0 <= i < |unique| ==> Parses(unique[i]);
    }
  }

  // ---------------------------------------------------------------- the comparison

  /** The records as the strategies see them. */
  lemma Parsed(unique: seq<RecordView>) returns (ps: seq<ParsedRecord>)
    requires WellFormed(unique)
    ensures ParseAmounts(unique) == Some(ps) && |ps| == |unique|
    ensures forall i :: 0 <= i < |ps| ==> ps[i] == ParsedRecord(unique[i], AmountOf(unique[i]))
    ensures forall i, a :: 0 <= i < |ps| ==> (ps[i].amount == Some(a) <==> ReportsAmount(unique, i, a))
  {
    assert forall i :: 0 <= i < |unique| ==> Parses(unique[i]);
    ps := ParseAmounts(unique).value;
  }

  lemma ConflictIff(unique: seq<RecordView>, ps: seq<ParsedRecord>)
    requires |ps| == |unique| && forall i :: 0 <= i < |ps| ==> ps[i].view == unique[i]
    ensures CurrencyConflict(ps) <==> CurrenciesDiffer(unique)
  {
    CurrencyConflictIff(ps);
    hide CurrencyConflict;
    if CurrenciesDiffer(unique) {
      var i, j :| 0 <= i < |unique| && 0 <= j < |unique|
        && unique[i].currency.Some? && unique[j].currency.Some? && unique[i].currency != unique[j].currency;
      assert ps[i].view.currency != ps[j].view.currency;
    }
  }

  lemma AfterParsing(unique: seq<RecordView>, rules: RuleSet, firstSeen: int, now: int, ps: seq<ParsedRecord>)
    requires Comparable(unique, rules) && ParseAmounts(unique) == Some(ps) && |ps| == |unique|
    ensures Decide(unique, rules, firstSeen, now)
      == Ok(if CurrencyConflict(ps) then Mismatched(ResultsWith(ps, AllFlagged(|ps|)), CurrencyMismatch)
            else CompareAmounts(ps, rules))
  {
    SourcesPresent(unique, rules);
    hide ParseAmounts, CurrencyConflict, CompareAmounts, AllSourcesPresent, ResultsWith, AllFlagged;
  }

  lemma Compared(unique: seq<RecordView>, rules: RuleSet, firstSeen: int, now: int) returns (ps: seq<ParsedRecord>)
    requires Comparable(unique, rules) && WellFormed(unique)
    ensures |ps| == |unique|
    ensures forall i :: 0 <= i < |ps| ==> ps[i] == ParsedRecord(unique[i], AmountOf(unique[i]))
    ensures forall i, a :: 0 <= i < |ps| ==> (ps[i].amount == Some(a) <==> ReportsAmount(unique, i, a))
    ensures var r := Decide(unique, rules, firstSeen, now);
      && r.Ok?
      && r.outcome == if CurrenciesDiffer(unique) then Mismatched(ResultsWith(ps, AllFlagged(|ps|)), CurrencyMismatch)
                      else CompareAmounts(ps, rules)
  {
    hide Decide, ParseAmounts, CurrencyConflict, CurrenciesDiffer, CompareAmounts, ReportsAmount, Comparable, WellFormed;
    ps := Parsed(unique);
    ConflictIff(unique, ps);
    AfterParsing(unique, rules, firstSeen, now, ps);
  }

  lemma ReportsParsed(unique: seq<RecordView>, ps: seq<ParsedRecord>, flags: seq<bool>, o: Outcome)
    requires |ps| == |unique| && forall i :: 0 <= i < |ps| ==> ps[i] == ParsedRecord(unique[i], AmountOf(unique[i]))
    requires |flags| == |ps| && !o.Pending? && o.results == ResultsWith(ps, flags)
    ensures Reports(o, unique) && forall i :: 0 <= i < |unique| ==> o.results[i].discrepancy == flags[i]
  {}

  lemma {:induction false} ReferenceIs(unique: seq<RecordView>, ps: seq<ParsedRecord>, r: int)
    requires |ps| == |unique|
    requires forall i, a :: 0 <= i < |ps| ==> (ps[i].amount == Some(a) <==> ReportsAmount(unique, i, a))
    ensures Reference(unique, r) <==> FirstAmount(ps) == Some(r)
  {
    var first := FirstAmount(ps);
    if first.Some? {
      var k: int :| FirstAmountAt(ps, k) && ps[k].amount == first;
      assert ReportsAmount(unique, k, first.value);
      assert Reference(unique, first.value);
    }
    if Reference(unique, r) {
      var k :| ReportsAmount(unique, k, r) && forall j, a :: 0 <= j < k ==> !ReportsAmount(unique, j, a);
      assert ps[k].amount == Some(r);
      forall j | 0 <= j < k ensures ps[j].amount.None? {
        AmountReported(unique, ps, j);
      }
      FirstAmountIs(ps, k);
    }
  }

  lemma AmountReported(unique: seq<RecordView>, ps: seq<ParsedRecord>, j: int)
    requires |ps| == |unique| && 0 <= j < |ps|
    requires forall i, a :: 0 <= i < |ps| ==> (ps[i].amount == Some(a) <==> ReportsAmount(unique, i, a))
    ensures ps[j].amount.Some? ==> ReportsAmount(unique, j, ps[j].amount.value)
  {}

  lemma FirstAmountIs(ps: seq<ParsedRecord>, k: int)
    requires FirstAmountAt(ps, k)
    ensures FirstAmount(ps) == ps[k].amount
  {
    var j: int :| FirstAmountAt(ps, j) && ps[j].amount == FirstAmount(ps);
  }

  /** Under Exact, a record is flagged iff two currencies differ, or its amount is not the first one;
      MISMATCHED iff some record is. */
  lemma ExactAnswer(unique: seq<RecordView>, rules: RuleSet, firstSeen: int, now: int)
    requires Comparable(unique, rules) && WellFormed(unique) && rules.strategy == ExactMatch
    ensures var r := Decide(unique, rules, firstSeen, now);
      && r.Ok? && Reports(r.outcome, unique)
      && (forall i :: 0 <= i < |unique| ==>
        (r.outcome.results[i].discrepancy <==> CurrenciesDiffer(unique) || Differs(unique, i)))
      && (r.outcome.Mismatched? <==> CurrenciesDiffer(unique) || exists i :: 0 <= i < |unique| && Differs(unique, i))
      && (r.outcome.Mismatched? ==>
        r.outcome.reason == if CurrenciesDiffer(unique) then CurrencyMismatch else ExactDiffers)
  {
    var ps := Compared(unique, rules, firstSeen, now);
    var o := Decide(unique, rules, firstSeen, now).outcome;
    if CurrenciesDiffer(unique) {
      ReportsParsed(unique, ps, AllFlagged(|ps|), o);
    } else {
      ReportsParsed(unique, ps, ExactFlags(ps), o);
      forall i: nat | i < |unique| ensures ExactFlags(ps)[i] <==> Differs(unique, i) { ExactFlag(unique, ps, i); }
    }
  }

  lemma ExactFlag(unique: seq<RecordView>, ps: seq<ParsedRecord>, i: nat)
    requires |ps| == |unique| && i < |ps|
    requires forall i, a :: 0 <= i < |ps| ==> (ps[i].amount == Some(a) <==> ReportsAmount(unique, i, a))
    ensures ExactFlags(ps)[i] <==> Differs(unique, i)
  {
    if ps[i].amount.Some? {
      assert FirstAmount(ps).Some?;
      ReferenceIs(unique, ps, FirstAmount(ps).value);
      assert ReportsAmount(unique, i, ps[i].amount.value);
    }
    if Differs(unique, i) {
      var a, r :| ReportsAmount(unique, i, a) && Reference(unique, r) && a != r;
      ReferenceIs(unique, ps, r);
    }
  }

  /** Under Tolerance, a record is flagged iff two currencies differ, or its amount is not within
      tolerance of the first one; MISMATCHED iff some record is. */
  lemma ToleranceAnswer(unique: seq<RecordView>, rules: RuleSet, firstSeen: int, now: int)
    requires Comparable(unique, rules) && WellFormed(unique) && rules.strategy == ToleranceMatch
    ensures var r := Decide(unique, rules, firstSeen, now);
      && r.Ok? && Reports(r.outcome, unique)
      && (forall i :: 0 <= i < |unique| ==>
        (r.outcome.results[i].discrepancy <==> CurrenciesDiffer(unique) || Outside(unique, rules.tolerance, i)))
      && (r.outcome.Mismatched? <==>
        CurrenciesDiffer(unique) || exists i :: 0 <= i < |unique| && Outside(unique, rules.tolerance, i))
      && (r.outcome.Mismatched? ==>
        r.outcome.reason == if CurrenciesDiffer(unique) then CurrencyMismatch else ToleranceExceeded)
  {
    var ps := Compared(unique, rules, firstSeen, now);
    var o := Decide(unique, rules, firstSeen, now).outcome;
    if CurrenciesDiffer(unique) {
      ReportsParsed(unique, ps, AllFlagged(|ps|), o);
    } else {
      ReportsParsed(unique, ps, ToleranceFlags(ps, rules.tolerance), o);
      forall i: nat | i < |unique|
        ensures ToleranceFlags(ps, rules.tolerance)[i] <==> Outside(unique, rules.tolerance, i)
      {
        ToleranceFlag(unique, ps, rules.tolerance, i);
      }
    }
  }

  lemma ToleranceFlag(unique: seq<RecordView>, ps: seq<ParsedRecord>, t: Tolerance, i: nat)
    requires |ps| == |unique| && i < |ps|
    requires forall i, a :: 0 <= i < |ps| ==> (ps[i].amount == Some(a) <==> ReportsAmount(unique, i, a))
    ensures ToleranceFlags(ps, t)[i] <==> Outside(unique, t, i)
  {
    ToleranceFlagAt(ps, t, i);
    hide Within, ToleranceFlags;
    if ps[i].amount.Some? {
      assert FirstAmount(ps).Some?;
      ReferenceIs(unique, ps, FirstAmount(ps).value);
      assert ReportsAmount(unique, i, ps[i].amount.value);
    }
    if Outside(unique, t, i) {
      var a, r :| ReportsAmount(unique, i, a) && Reference(unique, r) && !Within(t, a, r);
      ReferenceIs(unique, ps, r);
    }
  }

  /** The amounts in listing order, None where a record has none. */
  ghost predicate AmountsListed(unique: seq<RecordView>, amts: seq<Option<int>>) {
    |amts| == |unique| && forall i, a :: 0 <= i < |amts| ==> (amts[i] == Some(a) <==> ReportsAmount(unique, i, a))
  }

  /** Under Majority, whatever first-fit clustering of the amounts one looks at: a record is flagged iff
      two currencies differ, or its bucket is smaller than some other; MISMATCHED iff two currencies
      or the sizes of two buckets differ. */
  lemma MajorityAnswer(unique: seq<RecordView>, rules: RuleSet, firstSeen: int, now: int,
                       amts: seq<Option<int>>, buckets: Buckets)
    requires Comparable(unique, rules) && WellFormed(unique) && rules.strategy == MajorityMatch
    requires AmountsListed(unique, amts) && IsFirstFit(rules.tolerance, amts, |amts|, buckets)
    ensures var r := Decide(unique, rules, firstSeen, now);
      && r.Ok? && Reports(r.outcome, unique)
      && (forall i :: 0 <= i < |unique| ==>
        (r.outcome.results[i].discrepancy <==> CurrenciesDiffer(unique) || Outvoted(buckets, i)))
      && (r.outcome.Mismatched? <==>
        CurrenciesDiffer(unique) || SizesDiffer(buckets))
      && (r.outcome.Mismatched? ==>
        r.outcome.reason == if CurrenciesDiffer(unique) then CurrencyMismatch else MajorityOutliers)
  {
    var ps := Compared(unique, rules, firstSeen, now);
    var o := Decide(unique, rules, firstSeen, now).outcome;
    if CurrenciesDiffer(unique) {
      ReportsParsed(unique, ps, AllFlagged(|ps|), o);
    } else {
      SameAmountsListed(unique, ps, amts);
      FirstFitUnique(rules.tolerance, amts, |amts|, buckets);
      ReportsParsed(unique, ps, MajorityFlags(ps, rules.tolerance), o);
      MajorityMatchedIff(ps, rules.tolerance);
      forall i: nat | i < |unique| ensures MajorityFlags(ps, rules.tolerance)[i] <==> Outvoted(buckets, i) {
        MajorityFlag(ps, rules.tolerance, i);
      }
    }
  }

  lemma SameAmountsListed(unique: seq<RecordView>, ps: seq<ParsedRecord>, amts: seq<Option<int>>)
    requires |ps| == |unique| && AmountsListed(unique, amts)
    requires forall i, a :: 0 <= i < |ps| ==> (ps[i].amount == Some(a) <==> ReportsAmount(unique, i, a))
    ensures AmountsOf(ps) == amts
  {
    forall i | 0 <= i < |ps| ensures ps[i].amount == amts[i] {
      if ps[i].amount.Some? { assert ReportsAmount(unique, i, ps[i].amount.value); }
      if amts[i].Some? { assert ReportsAmount(unique, i, amts[i].value); }
    }
  }

  lemma MajorityFlag(ps: seq<ParsedRecord>, t: Tolerance, i: nat)
    requires i < |ps|
    ensures MajorityFlags(ps, t)[i] <==> Outvoted(FirstFit(t, AmountsOf(ps), |ps|), i)
  {
    var buckets := FirstFit(t, AmountsOf(ps), |ps|);
    FirstFitIsFirstFit(t, AmountsOf(ps), |ps|);
    assert Placed(buckets, i);
    var b: nat :| InBucket(buckets, b, i);
    MajorityFlagsAre(ps, t, b, i);
    hide MajorityFlags, FirstFit;
    if Outvoted(buckets, i) {
      var a: nat, c: nat :| InBucket(buckets, c, i) && a < |buckets| && |buckets[c]| < |buckets[a]|;
      assert c == b;
    }
  }
}
