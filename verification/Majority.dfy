/** When the majority verdict does not depend on the order of the records: if tolerance sorts the
    reported amounts into clear groups, the verdict is about the sizes of those groups. */
module Majority {
  import opened Wrappers
  import opened Rules
  import opened Matcher
  import opened Clustering
  import opened MatcherLaws

  /** On the amounts reported, `within` is transitive, so it groups them. */
  ghost predicate Grouped(ps: seq<ParsedRecord>, t: Tolerance) {
    forall a, b, c :: HasAmount(ps, a) && HasAmount(ps, b) && HasAmount(ps, c) && Within(t, a, b) && Within(t, b, c)
      ==> Within(t, a, c)
  }

  predicate Near(p: ParsedRecord, t: Tolerance, a: int) { p.amount.Some? && Within(t, p.amount.value, a) }

  /** Number of records within tolerance of `a`. */
  function Agreeing(ps: seq<ParsedRecord>, t: Tolerance, a: int): nat {
    if ps == [] then 0 else
      var last := ps[|ps| - 1];
      Agreeing(ps[..|ps| - 1], t, a) + if Near(last, t, a) then 1 else 0
  }

  /** The size of a record's group; a record without amount stands alone. */
  function Support(ps: seq<ParsedRecord>, t: Tolerance, p: ParsedRecord): nat {
    if p.amount.None? then 1 else Agreeing(ps, t, p.amount.value)
  }

  /** A bucket of an amounted record holds exactly the records near it. */
  lemma BucketIsGroup(ps: seq<ParsedRecord>, t: Tolerance, b: nat, i: nat, k: nat)
    requires Grouped(ps, t) && i < |ps| && k < |ps| && ps[i].amount.Some?
    requires InBucket(FirstFit(t, AmountsOf(ps), |ps|), b, i)
    ensures k in FirstFit(t, AmountsOf(ps), |ps|)[b] <==> Near(ps[k], t, ps[i].amount.value)
  {
    var amts := AmountsOf(ps);
    var buckets := FirstFit(t, amts, |ps|);
    FirstFitIsFirstFit(t, amts, |ps|);
    assert Fits(t, amts, buckets[b], i);
    assert Placed(buckets, k);
    var a: nat :| InBucket(buckets, a, k);
    hide FirstFit;
    if k in buckets[b] {
      SameBucketNear(ps, t, buckets, b, i, k);
    } else if Near(ps[k], t, ps[i].amount.value) {
      NearSameBucket(ps, t, buckets, a, b, i, k);
    }
  }

  lemma SameBucketNear(ps: seq<ParsedRecord>, t: Tolerance, buckets: Buckets, b: nat, i: nat, k: nat)
    requires Grouped(ps, t) && IsFirstFit(t, AmountsOf(ps), |ps|, buckets)
    requires i < |ps| && k < |ps| && ps[i].amount.Some? && InBucket(buckets, b, i) && InBucket(buckets, b, k)
    ensures Near(ps[k], t, ps[i].amount.value)
  {
    var amts, h := AmountsOf(ps), buckets[b][0];
    assert Fits(t, amts, buckets[b], i);
    if amts[k].Some? {
      assert Fits(t, amts, buckets[b], k);
      Amounts(ps, [i, k, h]);
      WithinSymmetric(t, ps[i].amount.value, ps[h].amount.value);
    }
  }

  lemma Amounts(ps: seq<ParsedRecord>, at: seq<nat>)
    requires forall x :: x in at ==> x < |ps| && ps[x].amount.Some?
    ensures forall x :: x in at ==> HasAmount(ps, ps[x].amount.value)
  {}

  lemma NearFits(ps: seq<ParsedRecord>, t: Tolerance, bucket: seq<nat>, i: nat, k: nat)
    requires Grouped(ps, t) && i < |ps| && k < |ps| && bucket != [] && bucket[0] < |ps|
    requires ps[i].amount.Some? && Near(ps[k], t, ps[i].amount.value) && Fits(t, AmountsOf(ps), bucket, k)
    ensures Fits(t, AmountsOf(ps), bucket, i)
  {}

  lemma NearSameBucket(ps: seq<ParsedRecord>, t: Tolerance, buckets: Buckets, a: nat, b: nat, i: nat, k: nat)
    requires Grouped(ps, t) && IsFirstFit(t, AmountsOf(ps), |ps|, buckets)
    requires i < |ps| && k < |ps| && ps[i].amount.Some? && InBucket(buckets, b, i) && InBucket(buckets, a, k)
    requires Near(ps[k], t, ps[i].amount.value)
    ensures a == b
  {
    WithinSymmetric(t, ps[k].amount.value, ps[i].amount.value);
    assert Fits(t, AmountsOf(ps), buckets[b], i) && Fits(t, AmountsOf(ps), buckets[a], k);
    NearFits(ps, t, buckets[a], i, k);
    NearFits(ps, t, buckets[b], k, i);
  }

  lemma FirstIn(s: seq<nat>)
    requires s != []
    ensures s[0] in s
  {}

  /** Counting the members of an ascending list of positions. */
  lemma {:induction false} GroupSize(ps: seq<ParsedRecord>, t: Tolerance, a: int, s: seq<nat>)
    requires Clustering.Ascending(s) && forall k: nat :: k in s <==> k < |ps| && Near(ps[k], t, a)
    ensures |s| == Agreeing(ps, t, a)
    decreases |ps|
  {
    if ps == [] {
      if s != [] { FirstIn(s); }
    } else {
      var n := |ps| - 1;
      if Near(ps[n], t, a) {
        assert n in s;
        var m := |s| - 1;
        assert s[m] in s;
        assert s[m] == n;
        assert forall k: nat :: k in s[..m] <==> k in s && k != n;
        GroupSize(ps[..n], t, a, s[..m]);
      } else {
        GroupSize(ps[..n], t, a, s);
      }
    }
  }

  lemma BucketSize(ps: seq<ParsedRecord>, t: Tolerance, b: nat, i: nat)
    requires Grouped(ps, t) && i < |ps| && InBucket(FirstFit(t, AmountsOf(ps), |ps|), b, i)
    ensures |FirstFit(t, AmountsOf(ps), |ps|)[b]| == Support(ps, t, ps[i])
  {
    var buckets := FirstFit(t, AmountsOf(ps), |ps|);
    FirstFitIsFirstFit(t, AmountsOf(ps), |ps|);
    if ps[i].amount.Some? {
      forall k: nat ensures k in buckets[b] <==> k < |ps| && Near(ps[k], t, ps[i].amount.value) {
        if k < |ps| { BucketIsGroup(ps, t, b, i, k); }
      }
      GroupSize(ps, t, ps[i].amount.value, buckets[b]);
    }
  }

  ghost predicate EvenlySupported(ps: seq<ParsedRecord>, t: Tolerance) {
    forall i, j :: 0 <= i < |ps| && 0 <= j < |ps| ==> Support(ps, t, ps[i]) == Support(ps, t, ps[j])
  }

  lemma BucketOf(ps: seq<ParsedRecord>, t: Tolerance, i: nat) returns (b: nat)
    requires Grouped(ps, t) && i < |ps|
    ensures var buckets := FirstFit(t, AmountsOf(ps), |ps|);
      InBucket(buckets, b, i) && |buckets[b]| == Support(ps, t, ps[i])
  {
    var buckets := FirstFit(t, AmountsOf(ps), |ps|);
    FirstFitIsFirstFit(t, AmountsOf(ps), |ps|);
    assert Placed(buckets, i);
    b :| InBucket(buckets, b, i);
    BucketSize(ps, t, b, i);
  }

  ghost predicate EqualSizes(buckets: Buckets) {
    forall a, b :: 0 <= a < |buckets| && 0 <= b < |buckets| ==> |buckets[a]| == |buckets[b]|
  }

  lemma EvenBuckets(ps: seq<ParsedRecord>, t: Tolerance)
    requires Grouped(ps, t) && EvenlySupported(ps, t)
    ensures EqualSizes(FirstFit(t, AmountsOf(ps), |ps|))
  {
    var buckets := FirstFit(t, AmountsOf(ps), |ps|);
    forall a: nat, b: nat | a < |buckets| && b < |buckets| ensures |buckets[a]| == |buckets[b]| {
      var i, j := buckets[a][0], buckets[b][0];
      assert InBucket(buckets, a, i) && InBucket(buckets, b, j);
      hide FirstFit, Support;
      BucketSize(ps, t, a, i);
      BucketSize(ps, t, b, j);
    }
  }

  lemma EvenSupport(ps: seq<ParsedRecord>, t: Tolerance)
    requires Grouped(ps, t) && EqualSizes(FirstFit(t, AmountsOf(ps), |ps|))
    ensures EvenlySupported(ps, t)
  {
    forall i, j | 0 <= i < |ps| && 0 <= j < |ps| ensures Support(ps, t, ps[i]) == Support(ps, t, ps[j]) {
      hide FirstFit, Support;
      var a := BucketOf(ps, t, i);
      var b := BucketOf(ps, t, j);
    }
  }

  /** With grouped amounts the verdict is MATCHED iff all groups have the same size. */
  lemma MajorityByGroups(ps: seq<ParsedRecord>, t: Tolerance)
    requires Grouped(ps, t)
    ensures MajorityOutcome(ps, t).Matched? <==> EvenlySupported(ps, t)
  {
    MajorityMatchedIff(ps, t);
    hide FirstFit, MajorityFlags, Support, Grouped;
    if EvenlySupported(ps, t) { EvenBuckets(ps, t); }
    if EqualSizes(FirstFit(t, AmountsOf(ps), |ps|)) { EvenSupport(ps, t); }
  }

  // ---------------------------------------------------------------- order

  lemma {:induction false} AgreeingJoins(ps: seq<ParsedRecord>, qs: seq<ParsedRecord>, t: Tolerance, a: int)
    ensures Agreeing(ps + qs, t, a) == Agreeing(ps, t, a) + Agreeing(qs, t, a)
    decreases |qs|
  {
    if qs == [] {
      assert ps + qs == ps;
    } else {
      assert (ps + qs)[..|ps + qs| - 1] == ps + qs[..|qs| - 1];
      AgreeingJoins(ps, qs[..|qs| - 1], t, a);
    }
  }

  lemma AgreeingWithout(qs: seq<ParsedRecord>, j: nat, t: Tolerance, a: int)
    requires j < |qs|
    ensures Agreeing(qs, t, a) == Agreeing(qs[..j] + qs[j + 1..], t, a) + if Near(qs[j], t, a) then 1 else 0
  {
    assert qs == qs[..j] + ([qs[j]] + qs[j + 1..]);
    AgreeingJoins(qs[..j], qs[j + 1..], t, a);
    AgreeingJoins(qs[..j], [qs[j]] + qs[j + 1..], t, a);
    AgreeingJoins([qs[j]], qs[j + 1..], t, a);
    assert [qs[j]][..0] == [];
  }

  lemma MultisetWithout(qs: seq<ParsedRecord>, j: nat)
    requires j < |qs|
    ensures multiset(qs[..j] + qs[j + 1..]) == multiset(qs) - multiset{qs[j]}
  {
    assert qs == qs[..j] + ([qs[j]] + qs[j + 1..]);
  }

  lemma {:induction false} AgreeingPermutes(ps: seq<ParsedRecord>, qs: seq<ParsedRecord>, t: Tolerance, a: int)
    requires SameRecords(ps, qs)
    ensures Agreeing(ps, t, a) == Agreeing(qs, t, a)
    decreases |ps|
  {
    if ps == [] {
      assert |multiset(qs)| == |qs|;
    } else {
      var n := |ps| - 1;
      assert ps[n] in multiset(qs);
      var j :| 0 <= j < |qs| && qs[j] == ps[n];
      assert ps[..n] + ps[n + 1..] == ps[..n];
      MultisetWithout(ps, n);
      MultisetWithout(qs, j);
      hide Near, Agreeing;
      AgreeingPermutes(ps[..n], qs[..j] + qs[j + 1..], t, a);
      AgreeingWithout(ps, n, t, a);
      AgreeingWithout(qs, j, t, a);
    }
  }

  lemma SupportPermutes(ps: seq<ParsedRecord>, qs: seq<ParsedRecord>, t: Tolerance)
    requires SameRecords(ps, qs) && EvenlySupported(ps, t)
    ensures EvenlySupported(qs, t)
  {
    forall i, j | 0 <= i < |qs| && 0 <= j < |qs| ensures Support(qs, t, qs[i]) == Support(qs, t, qs[j]) {
      assert qs[i] in multiset(ps) && qs[j] in multiset(ps);
      var k :| 0 <= k < |ps| && ps[k] == qs[i];
      var l :| 0 <= l < |ps| && ps[l] == qs[j];
      assert Support(ps, t, ps[k]) == Support(ps, t, ps[l]);
      if qs[i].amount.Some? { AgreeingPermutes(ps, qs, t, qs[i].amount.value); }
      if qs[j].amount.Some? { AgreeingPermutes(ps, qs, t, qs[j].amount.value); }
    }
  }

  /** Grouped amounts get the same majority verdict in every order. */
  lemma MajorityOrderIndependent(ps: seq<ParsedRecord>, qs: seq<ParsedRecord>, t: Tolerance)
    requires SameRecords(ps, qs) && Grouped(ps, t)
    ensures MajorityOutcome(ps, t).Matched? <==> MajorityOutcome(qs, t).Matched?
  {
    forall a ensures HasAmount(ps, a) <==> HasAmount(qs, a) { SameRecordsSameAmounts(ps, qs, a); }
    assert Grouped(qs, t);
    MajorityByGroups(ps, t);
    MajorityByGroups(qs, t);
    if EvenlySupported(ps, t) { SupportPermutes(ps, qs, t); }
    if EvenlySupported(qs, t) { SupportPermutes(qs, ps, t); }
  }

  /** A record in the middle decides by coming first or not. */
  lemma MiddleFirst(low: ParsedRecord, middle: ParsedRecord, high: ParsedRecord, t: Tolerance)
    requires low.amount.Some? && middle.amount.Some? && high.amount.Some?
    requires Within(t, low.amount.value, middle.amount.value) && Within(t, high.amount.value, middle.amount.value)
    requires !Within(t, high.amount.value, low.amount.value)
    ensures SameRecords([middle, low, high], [low, middle, high])
    ensures MajorityOutcome([middle, low, high], t).Matched? && !MajorityOutcome([low, middle, high], t).Matched?
  {
    var ps, qs := [middle, low, high], [low, middle, high];
    SwappedFront(middle, low, high);
    WithinReflexive(t, middle.amount.value);
    WithinSymmetric(t, low.amount.value, middle.amount.value);
    assert ps[0] == middle && ps[1] == low && ps[2] == high && qs[0] == low && qs[1] == middle && qs[2] == high;
    hide Within, FirstFit, MajorityFlags, Verdict;
    MatchedAround(ps, t);
    TwoToOneMismatches(qs, t);
  }

  ghost predicate MajorityIgnoresOrder(t: Tolerance) {
    forall ps, qs :: SameRecords(ps, qs) ==> (MajorityOutcome(ps, t).Matched? <==> MajorityOutcome(qs, t).Matched?)
  }

  /** Over all records: the order never matters to the majority verdict iff tolerance is an
      equivalence, that is in the two extreme configurations. */
  lemma MajorityOrderIndependentIff(t: Tolerance)
    ensures MajorityIgnoresOrder(t) <==> AllOrNothing(t)
  {
    TransitiveIff(t);
    if AllOrNothing(t) {
      forall ps, qs | SameRecords(ps, qs) ensures MajorityOutcome(ps, t).Matched? <==> MajorityOutcome(qs, t).Matched? {
        MajorityOrderIndependent(ps, qs, t);
      }
    } else {
      var low, middle, high := Intransitive(t);
      MiddleBreaksOrder(t, low, middle, high);
    }
  }

  lemma MiddleBreaksOrder(t: Tolerance, low: int, middle: int, high: int)
    requires Within(t, low, middle) && Within(t, middle, high) && !Within(t, low, high)
    ensures !MajorityIgnoresOrder(t)
  {
    hide Within, MajorityOutcome, SameRecords;
    WithinSymmetric(t, middle, high);
    WithinSymmetric(t, low, high);
    var a, b, c := Reporting(1, low), Reporting(2, middle), Reporting(3, high);
    MiddleFirst(a, b, c, t);
    assert SameRecords([b, a, c], [a, b, c]);
  }

  function Reporting(s: Source, amount: int): (p: ParsedRecord)
    ensures p.amount == Some(amount)
  {
    ParsedRecord(RecordView(s, s, Some(Decimal(amount)), None, None, 0), Some(amount))
  }

  // ---------------------------------------------------------------- two against one

  /** Two of three records agree, and the third agrees with neither. */
  predicate TwoAgainst(ps: seq<ParsedRecord>, t: Tolerance, i: nat, j: nat, k: nat)
  {
    && |ps| == 3 && i < 3 && j < 3 && k < 3 && i != j && i != k && j != k
    && ps[i].amount.Some? && ps[j].amount.Some? && ps[k].amount.Some?
    && Within(t, ps[i].amount.value, ps[j].amount.value)
    && !Within(t, ps[k].amount.value, ps[i].amount.value) && !Within(t, ps[k].amount.value, ps[j].amount.value)
  }

  lemma TwoAgainstGrouped(ps: seq<ParsedRecord>, t: Tolerance, i: nat, j: nat, k: nat)
    requires TwoAgainst(ps, t, i, j, k)
    ensures Grouped(ps, t)
  {
    var a, b, c := ps[i].amount.value, ps[j].amount.value, ps[k].amount.value;
    WithinSymmetric(t, a, b);
    WithinSymmetric(t, a, c);
    WithinSymmetric(t, b, c);
    WithinReflexive(t, a);
    WithinReflexive(t, b);
    WithinReflexive(t, c);
    hide Within;
    forall x | HasAmount(ps, x) ensures x == a || x == b || x == c {}
  }

  lemma AgreeingOfThree(ps: seq<ParsedRecord>, t: Tolerance, a: int)
    requires |ps| == 3
    ensures Agreeing(ps, t, a)
      == (if Near(ps[0], t, a) then 1 else 0) + (if Near(ps[1], t, a) then 1 else 0) + (if Near(ps[2], t, a) then 1 else 0)
  {
    hide Near;
    assert ps[..2][..1] == ps[..1] && ps[..1][..0] == [];
    assert Agreeing(ps[..1], t, a) == if Near(ps[0], t, a) then 1 else 0;
    assert Agreeing(ps[..2], t, a) == Agreeing(ps[..1], t, a) + if Near(ps[1], t, a) then 1 else 0;
  }

  lemma SupportOfThree(ps: seq<ParsedRecord>, t: Tolerance, i: nat, j: nat, k: nat)
    requires TwoAgainst(ps, t, i, j, k)
    ensures Support(ps, t, ps[i]) == Support(ps, t, ps[j]) == 2 && Support(ps, t, ps[k]) == 1
  {
    var a, b, c := ps[i].amount.value, ps[j].amount.value, ps[k].amount.value;
    WithinSymmetric(t, a, b);
    WithinSymmetric(t, a, c);
    WithinSymmetric(t, b, c);
    WithinReflexive(t, a);
    WithinReflexive(t, b);
    WithinReflexive(t, c);
    hide Within, Agreeing;
    AgreeingOfThree(ps, t, a);
    AgreeingOfThree(ps, t, b);
    AgreeingOfThree(ps, t, c);
  }

  /** A record is flagged iff some record has more support. */
  lemma FlaggedBySupport(ps: seq<ParsedRecord>, t: Tolerance, i: nat)
    requires Grouped(ps, t) && i < |ps|
    ensures MajorityFlags(ps, t)[i] <==> exists j :: 0 <= j < |ps| && Support(ps, t, ps[i]) < Support(ps, t, ps[j])
  {
    var buckets := FirstFit(t, AmountsOf(ps), |ps|);
    var b := BucketOf(ps, t, i);
    MajorityFlagsAre(ps, t, b, i);
    FirstFitIsFirstFit(t, AmountsOf(ps), |ps|);
    hide FirstFit, MajorityFlags, Support;
    if a: nat :| a < |buckets| && |buckets[b]| < |buckets[a]| {
      assert InBucket(buckets, a, buckets[a][0]);
      BucketSize(ps, t, a, buckets[a][0]);
    }
    if j: nat :| j < |ps| && Support(ps, t, ps[i]) < Support(ps, t, ps[j]) {
      var a := BucketOf(ps, t, j);
    }
  }

  lemma TwoToOneFlag(ps: seq<ParsedRecord>, t: Tolerance, i: nat, j: nat, k: nat, x: nat)
    requires TwoAgainst(ps, t, i, j, k) && x < 3
    ensures MajorityFlags(ps, t)[x] <==> x == k
  {
    hide Within, MajorityFlags, Support, Grouped;
    TwoAgainstGrouped(ps, t, i, j, k);
    SupportOfThree(ps, t, i, j, k);
    FlaggedBySupport(ps, t, x);
    assert x == i || x == j || x == k;
    assert Support(ps, t, ps[k]) < Support(ps, t, ps[i]);
  }

  /** A two-to-one split is MISMATCHED in every order of the records, whichever of them is the
      outlier, and flags the outlier alone. */
  lemma TwoToOneAnyOrder(ps: seq<ParsedRecord>, t: Tolerance, i: nat, j: nat, k: nat)
    requires TwoAgainst(ps, t, i, j, k)
    ensures MajorityOutcome(ps, t).Mismatched?
    ensures forall x :: 0 <= x < 3 ==> (MajorityFlags(ps, t)[x] <==> x == k)
  {
    hide Within, MajorityFlags;
    TwoToOneFlag(ps, t, i, j, k, 0);
    TwoToOneFlag(ps, t, i, j, k, 1);
    TwoToOneFlag(ps, t, i, j, k, 2);
    assert MajorityFlags(ps, t)[k];
  }

  /** Without groups it can depend on the order: amounts 0, 5, 10 at tolerance 5 are one bucket when
      5 comes first, and two against one when it does not. */
  lemma MajorityDependsOnOrder() returns (ps: seq<ParsedRecord>, qs: seq<ParsedRecord>, t: Tolerance)
    ensures SameRecords(ps, qs) && MajorityOutcome(ps, t).Matched? && !MajorityOutcome(qs, t).Matched?
  {
    t := Tolerance(5, 0);
    var low, middle, high := Reporting(1, 0), Reporting(2, 5), Reporting(3, 10);
    WithinFive();
    hide *;
    ps, qs := [middle, low, high], [low, middle, high];
    MiddleFirst(low, middle, high, t);
  }

  lemma SwappedFront<T>(a: T, b: T, c: T)
    ensures multiset([a, b, c]) == multiset([b, a, c])
  {
    assert [a, b, c] == [a, b] + [c] && [b, a, c] == [b, a] + [c];
    assert multiset([a, b]) == multiset([b, a]);
  }

  lemma MatchedAround(ps: seq<ParsedRecord>, t: Tolerance)
    requires ps != [] && forall i :: 0 <= i < |ps| ==> ps[i].amount.Some?
    requires forall i :: 0 <= i < |ps| ==> Within(t, ps[i].amount.value, ps[0].amount.value)
    ensures MajorityOutcome(ps, t).Matched?
  {
    assert FirstAmount(ps) == ps[0].amount;
    ToleranceMatchedIff(ps, t, ps[0].amount.value);
    hide Within, FirstFit;
    ToleranceImpliesMajority(ps, t);
  }
}
