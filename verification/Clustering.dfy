/** The majority strategy's bucketing loop: what its buckets are, and when it says MATCHED
    (services/engine/src/engine/matcher.rs, compare_majority). */
module Clustering {
  import opened Wrappers
  import opened Rules
  import opened Matcher

  ghost predicate InBucket(buckets: Buckets, b: nat, i: nat) {
    b < |buckets| && i in buckets[b]
  }

  ghost predicate Placed(buckets: Buckets, i: nat) {
    exists b: nat :: InBucket(buckets, b, i)
  }

  predicate Ascending(s: seq<nat>) {
    forall i, j :: 0 <= i < j < |s| ==> s[i] < s[j]
  }

  /** The buckets partition 0..n, in order of their heads, each ascending. */
  ghost predicate Partitions(buckets: Buckets, n: nat) {
    && BucketsOver(buckets, n)
    && (forall b :: 0 <= b < |buckets| ==> Ascending(buckets[b]))
    && (forall a, b :: 0 <= a < b < |buckets| ==> buckets[a][0] < buckets[b][0])
    && (forall i: nat :: i < n ==> Placed(buckets, i))
    && (forall a: nat, b: nat, i: nat :: InBucket(buckets, a, i) && InBucket(buckets, b, i) ==> a == b)
  }

  /** What first fit promises of the first n records, without saying how it is computed. */
  ghost predicate IsFirstFit(t: Tolerance, amts: Amounts, n: nat, buckets: Buckets)
    requires n <= |amts|
  {
    && Partitions(buckets, n)
    // a record without amount is alone; one with an amount is within tolerance of its head
    && (forall b: nat, i: nat :: InBucket(buckets, b, i) ==>
      if amts[i].None? then buckets[b] == [i] else Fits(t, amts, buckets[b], i))
    // and of no earlier head
    && (forall a: nat, b: nat, i: nat :: a < b && InBucket(buckets, b, i) ==> !Fits(t, amts, buckets[a], i))
  }

  lemma PutMembers(buckets: Buckets, b: nat, i: nat, n: nat)
    requires b <= |buckets| && BucketsOver(buckets, n) && n <= i
    ensures var after := Put(buckets, b, i);
      && BucketsOver(after, i + 1)
      && (forall a: nat, j: nat :: InBucket(after, a, j) <==> InBucket(buckets, a, j) || (a == b && j == i))
      && (forall a :: 0 <= a < |buckets| ==> after[a][0] == buckets[a][0])
  {}

  lemma PutPartitions(buckets: Buckets, b: nat, n: nat)
    requires b <= |buckets| && Partitions(buckets, n)
    ensures Partitions(Put(buckets, b, n), n + 1)
  {
    PutMembers(buckets, b, n, n);
    var after := Put(buckets, b, n);
    assert InBucket(after, b, n);
    forall i: nat | i < n ensures Placed(after, i) {
      assert Placed(buckets, i);
      var a: nat :| InBucket(buckets, a, i);
      assert InBucket(after, a, i);
    }
    assert forall a: nat :: !InBucket(buckets, a, n);
  }

  /** The loop's buckets satisfy the description ... */
  lemma {:induction false} FirstFitIsFirstFit(t: Tolerance, amts: Amounts, n: nat)
    requires n <= |amts|
    ensures IsFirstFit(t, amts, n, FirstFit(t, amts, n))
  {
    if n == 0 {
      assert FirstFit(t, amts, 0) == [];
    } else {
      var i := n - 1;
      var before := FirstFit(t, amts, i);
      FirstFitIsFirstFit(t, amts, i);
      var b := FirstFitting(t, amts, before, i, 0);
      PutPartitions(before, b, i);
      if amts[i].Some? { WithinReflexive(t, amts[i].value); }
      FirstFitStep(t, amts, before, b, i);
    }
  }

  lemma FirstFitStep(t: Tolerance, amts: Amounts, before: Buckets, b: nat, i: nat)
    requires i < |amts| && b <= |before| && IsFirstFit(t, amts, i, before)
    requires b == FirstFitting(t, amts, before, i, 0)
    requires amts[i].Some? ==> Within(t, amts[i].value, amts[i].value)
    requires Partitions(Put(before, b, i), i + 1)
    ensures IsFirstFit(t, amts, i + 1, Put(before, b, i))
  {
    var after := Put(before, b, i);
    PutMembers(before, b, i, i);
    forall a: nat, j: nat | InBucket(after, a, j)
      ensures if amts[j].None? then after[a] == [j] else Fits(t, amts, after[a], j)
    {
      if j != i { assert InBucket(before, a, j); }
    }
    forall a: nat, c: nat, j: nat | a < c && InBucket(after, c, j)
      ensures !Fits(t, amts, after[a], j)
    {
      if j != i { assert InBucket(before, c, j); }
    }
  }

  /** ... and nothing else does: the description determines the buckets. */
  lemma {:induction false} FirstFitUnique(t: Tolerance, amts: Amounts, n: nat, buckets: Buckets)
    requires n <= |amts| && IsFirstFit(t, amts, n, buckets)
    ensures buckets == FirstFit(t, amts, n)
    decreases n
  {
    if n == 0 {
      NoRecords(t, amts, buckets);
    } else {
      var before := Peel(t, amts, n - 1, buckets);
      FirstFitUnique(t, amts, n - 1, before);
    }
  }

  lemma Peel(t: Tolerance, amts: Amounts, i: nat, buckets: Buckets) returns (before: Buckets)
    requires i < |amts| && IsFirstFit(t, amts, i + 1, buckets)
    ensures IsFirstFit(t, amts, i, before)
    ensures before == FirstFit(t, amts, i) ==> buckets == FirstFit(t, amts, i + 1)
  {
    assert Placed(buckets, i);
    var b: nat :| InBucket(buckets, b, i);
    before := Unput(buckets, b, i);
    UnputFirstFit(t, amts, buckets, before, b, i);
  }

  lemma NoRecords(t: Tolerance, amts: Amounts, buckets: Buckets)
    requires IsFirstFit(t, amts, 0, buckets)
    ensures buckets == FirstFit(t, amts, 0)
  {
    NoRecordsNoBuckets(buckets);
  }

  lemma NoRecordsNoBuckets(buckets: Buckets)
    requires BucketsOver(buckets, 0)
    ensures buckets == []
  {
    if buckets != [] { HeadBelow(buckets[0], 0); }
  }

  lemma HeadBelow(bucket: seq<nat>, n: nat)
    requires bucket != [] && forall i :: 0 <= i < |bucket| ==> bucket[i] < n
    ensures 0 < n
  {
    assert bucket[0] < n;
  }

  lemma LargestIsLast(s: seq<nat>, x: nat)
    requires Ascending(s) && x in s && forall k :: 0 <= k < |s| ==> s[k] <= x
    ensures s[|s| - 1] == x && forall k :: 0 <= k < |s| - 1 ==> s[k] < x
  {}

  /** Record i, the largest, ends its bucket; it is alone only in the last bucket. */
  lemma LastOfBucket(buckets: Buckets, b: nat, i: nat)
    requires Partitions(buckets, i + 1) && InBucket(buckets, b, i)
    ensures buckets[b][|buckets[b]| - 1] == i
    ensures forall k :: 0 <= k < |buckets[b]| - 1 ==> buckets[b][k] < i
    ensures |buckets[b]| == 1 ==> b == |buckets| - 1
  {
    LargestIsLast(buckets[b], i);
    var top := |buckets| - 1;
    assert buckets[b][0] <= buckets[top][0] <= i;
  }

  lemma OthersBelow(buckets: Buckets, b: nat, i: nat, a: nat)
    requires Partitions(buckets, i + 1) && InBucket(buckets, b, i) && a < |buckets| && a != b
    ensures forall k :: 0 <= k < |buckets[a]| ==> buckets[a][k] < i
  {
    assert !InBucket(buckets, a, i);
  }

  /** Take the last record out again. */
  lemma Unput(buckets: Buckets, b: nat, i: nat) returns (before: Buckets)
    requires Partitions(buckets, i + 1) && InBucket(buckets, b, i)
    ensures b <= |before| && BucketsOver(before, i) && buckets == Put(before, b, i)
    ensures forall a :: 0 <= a < |before| ==> before[a][0] == buckets[a][0]
  {
    LastOfBucket(buckets, b, i);
    var last := |buckets[b]| - 1;
    before := if last == 0 then buckets[..b] else buckets[b := buckets[b][..last]];
    assert buckets[b] == buckets[b][..last] + [i];
    forall a: nat | a < |before| ensures before[a] != [] && forall k :: 0 <= k < |before[a]| ==> before[a][k] < i {
      if a != b { OthersBelow(buckets, b, i, a); }
    }
  }

  lemma UnputFirstFit(t: Tolerance, amts: Amounts, buckets: Buckets, before: Buckets, b: nat, i: nat)
    requires i < |amts| && IsFirstFit(t, amts, i + 1, buckets)
    requires b <= |before| && BucketsOver(before, i) && buckets == Put(before, b, i)
    requires InBucket(buckets, b, i)
    ensures IsFirstFit(t, amts, i, before)
    ensures FirstFitting(t, amts, before, i, 0) == b
  {
    PutMembers(before, b, i, i);
    assert b < |before| ==> |buckets[b]| == |before[b]| + 1;
    FirstFittingIs(t, amts, before, i, 0, b);
    forall a: nat, j: nat | InBucket(before, a, j)
      ensures if amts[j].None? then before[a] == [j] else Fits(t, amts, before[a], j)
    {
      assert InBucket(buckets, a, j);
    }
    forall a: nat, c: nat, j: nat | a < c && InBucket(before, c, j)
      ensures !Fits(t, amts, before[a], j)
    {
      assert InBucket(buckets, c, j);
    }
    forall j: nat | j < i ensures Placed(before, j) {
      assert Placed(buckets, j);
      var a: nat :| InBucket(buckets, a, j);
      assert InBucket(before, a, j);
    }
    forall a: nat, c: nat, j: nat | InBucket(before, a, j) && InBucket(before, c, j) ensures a == c {
      assert InBucket(buckets, a, j) && InBucket(buckets, c, j);
    }
    forall a | 0 <= a < |before| ensures Ascending(before[a]) {
      assert Ascending(buckets[a]);
      assert forall k :: 0 <= k < |before[a]| ==> before[a][k] == buckets[a][k];
    }
  }

  lemma FirstFittingIs(t: Tolerance, amts: Amounts, buckets: Buckets, i: nat, from: nat, b: nat)
    requires i < |amts| && BucketsOver(buckets, i) && from <= b <= |buckets|
    requires forall a :: from <= a < b ==> !Fits(t, amts, buckets[a], i)
    requires b < |buckets| ==> Fits(t, amts, buckets[b], i)
    ensures FirstFitting(t, amts, buckets, i, from) == b
  {}

  // ---------------------------------------------------------------- verdict of the strategy

  /** Flagged are exactly the records whose bucket is not of the largest size. */
  lemma MajorityFlagsAre(ps: seq<ParsedRecord>, t: Tolerance, b: nat, i: nat)
    requires InBucket(FirstFit(t, AmountsOf(ps), |ps|), b, i)
    ensures i < |ps|
    ensures var buckets := FirstFit(t, AmountsOf(ps), |ps|);
      MajorityFlags(ps, t)[i] <==> exists a :: 0 <= a < |buckets| && |buckets[b]| < |buckets[a]|
  {
    var buckets := FirstFit(t, AmountsOf(ps), |ps|);
    FirstFitIsFirstFit(t, AmountsOf(ps), |ps|);
    var m := LargestSize(buckets);
    if IsWinner(buckets, i) {
      var a :| 0 <= a < |buckets| && i in buckets[a] && |buckets[a]| == m;
      assert InBucket(buckets, a, i);
      assert a == b;
    } else {
      var a :| 0 <= a < |buckets| && |buckets[a]| == m;
      assert |buckets[b]| < |buckets[a]|;
    }
  }

  /** MATCHED iff all buckets have the same size, so ties between disagreeing sources pass. */
  lemma MajorityMatchedIff(ps: seq<ParsedRecord>, t: Tolerance)
    ensures var buckets := FirstFit(t, AmountsOf(ps), |ps|);
      Verdict(ps, MajorityFlags(ps, t), MajorityOutliers).Matched? <==>
      forall a, b :: 0 <= a < |buckets| && 0 <= b < |buckets| ==> |buckets[a]| == |buckets[b]|
  {
    var buckets := FirstFit(t, AmountsOf(ps), |ps|);
    FirstFitIsFirstFit(t, AmountsOf(ps), |ps|);
    if Verdict(ps, MajorityFlags(ps, t), MajorityOutliers).Matched? {
      NoFlagMeansEqualSizes(ps, t, buckets);
    }
    if forall a, b :: 0 <= a < |buckets| && 0 <= b < |buckets| ==> |buckets[a]| == |buckets[b]| {
      forall i: nat | i < |ps| ensures !MajorityFlags(ps, t)[i] {
        assert Placed(buckets, i);
        var b: nat :| InBucket(buckets, b, i);
        MajorityFlagsAre(ps, t, b, i);
      }
    }
  }

  lemma NoFlagMeansEqualSizes(ps: seq<ParsedRecord>, t: Tolerance, buckets: Buckets)
    requires buckets == FirstFit(t, AmountsOf(ps), |ps|)
    requires forall i :: 0 <= i < |ps| ==> !MajorityFlags(ps, t)[i]
    ensures forall a, b :: 0 <= a < |buckets| && 0 <= b < |buckets| ==> |buckets[a]| == |buckets[b]|
  {
    forall a, b | 0 <= a < |buckets| && 0 <= b < |buckets| ensures |buckets[a]| <= |buckets[b]| {
      var i := buckets[b][0];
      assert InBucket(buckets, b, i);
      MajorityFlagsAre(ps, t, b, i);
    }
  }

  /** With two sources the strategy cannot disagree: one bucket of two, or a tie of one each. */
  lemma MajorityOfTwoMatches(ps: seq<ParsedRecord>, t: Tolerance)
    requires |ps| == 2
    ensures Verdict(ps, MajorityFlags(ps, t), MajorityOutliers).Matched?
  {
    var amts := AmountsOf(ps);
    assert FirstFit(t, amts, 0) == [];
    assert FirstFit(t, amts, 1) == [[0]];
    assert FirstFit(t, amts, 2) == Put([[0]], FirstFitting(t, amts, [[0]], 1, 0), 1);
    MajorityMatchedIff(ps, t);
  }

  /** A two-to-one split is MISMATCHED and flags the outlier, contrary to the unit test that
      expects the majority to win outright. */
  lemma TwoToOneMismatches(ps: seq<ParsedRecord>, t: Tolerance)
    requires |ps| == 3 && forall i :: 0 <= i < 3 ==> ps[i].amount.Some?
    requires Within(t, ps[1].amount.value, ps[0].amount.value)
    requires !Within(t, ps[2].amount.value, ps[0].amount.value)
    ensures MajorityFlags(ps, t) == [false, false, true]
    ensures Verdict(ps, MajorityFlags(ps, t), MajorityOutliers).Mismatched?
  {
    var buckets := FirstFit(t, AmountsOf(ps), 3);
    TwoToOneBuckets(t, AmountsOf(ps));
    hide FirstFit, Within;
    assert InBucket(buckets, 0, 0) && InBucket(buckets, 0, 1) && InBucket(buckets, 1, 2);
    MajorityFlagsAre(ps, t, 0, 0);
    MajorityFlagsAre(ps, t, 0, 1);
    MajorityFlagsAre(ps, t, 1, 2);
    assert |buckets[1]| < |buckets[0]|;
    assert MajorityFlags(ps, t)[2];
  }

  lemma TwoToOneBuckets(t: Tolerance, amts: Amounts)
    requires |amts| == 3 && forall i :: 0 <= i < 3 ==> amts[i].Some?
    requires Within(t, amts[1].value, amts[0].value) && !Within(t, amts[2].value, amts[0].value)
    ensures FirstFit(t, amts, 3) == [[0, 1], [2]]
  {
    assert FirstFit(t, amts, 0) == [];
    assert FirstFit(t, amts, 1) == [[0]];
    assert FirstFitting(t, amts, [[0]], 1, 0) == 0 && [0] + [1] == [0, 1];
    var two := FirstFit(t, amts, 2);
    assert two == Put([[0]], 0, 1);
    assert two == [[0, 1]];
    assert FirstFitting(t, amts, two, 2, 0) == FirstFitting(t, amts, two, 2, 1) == 1;
  }

  /** Two amounts of one bucket differ by at most twice the tolerance at the largest magnitude. */
  lemma BucketErrorBound(t: Tolerance, amts: Amounts, b: nat, i: nat, j: nat, m: nat)
    requires InBucket(FirstFit(t, amts, |amts|), b, i) && InBucket(FirstFit(t, amts, |amts|), b, j)
    requires forall k :: 0 <= k < |amts| && amts[k].Some? ==> Abs(amts[k].value) <= m
    requires i != j
    ensures i < |amts| && j < |amts| && amts[i].Some? && amts[j].Some?
    ensures Abs(amts[i].value - amts[j].value) * PCT_SCALE <= 2 * Max(t.absolute * PCT_SCALE, m * t.pct)
  {
    var buckets := FirstFit(t, amts, |amts|);
    FirstFitIsFirstFit(t, amts, |amts|);
    CommonReferenceBound(t, amts[i].value, amts[j].value, amts[buckets[b][0]].value, m);
  }
}
