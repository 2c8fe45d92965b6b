/** Matching rules: the tolerance relation and the expected-source constraint
    (services/engine/src/engine/rules.rs). */
module Wrappers {
  datatype Option<+T> = None | Some(value: T)
}

module Rules {
  import opened Wrappers

  /** Names (source systems, transaction refs, currencies, keys) are only ever compared, so they
      are numbers here; the order of refs stands for the database's collation. */
  type Source = nat
  type Currency = nat
  type Ref = nat

  /** Amounts are whole numbers of one common smallest unit. The percentage is the fraction the
      engine renders with ten decimals, i.e. a number of units of 10^-10. */
  const PCT_SCALE: int := 10_000_000_000

  datatype Tolerance = Tolerance(absolute: int, pct: nat)

  datatype MatchStrategy = ExactMatch | ToleranceMatch | MajorityMatch

  datatype RuleSet = RuleSet(
    strategy: MatchStrategy,
    tolerance: Tolerance,
    expectedSources: seq<Source>,
    maxRetries: int,
    pendingTimeoutSecs: nat)

  function Abs(x: int): nat { if x < 0 then -x else x }

  function Max(x: int, y: int): int { if x < y then y else x }

  /** Build the tolerance from configuration; `absolute` is None when its text is no decimal. */
  function FromConfig(absolute: Option<int>, pct: int): (t: Option<Tolerance>)
    ensures t.Some? <==> absolute.Some? && 0 <= pct
    ensures t.Some? ==> t.value.absolute == absolute.value && t.value.pct == pct
    ensures t.Some? ==> forall a: int :: Within(t.value, a, a)
  {
    match absolute
    case None => None
    case Some(abs) =>
      if pct < 0 then None else
      var t := Tolerance(abs, pct);
      assert forall a: int :: Within(t, a, a) by {
        forall a: int ensures Within(t, a, a) { WithinReflexive(t, a); }
      }
      Some(t)
  }

  /** The percentage part of the tolerance, in units of 1/PCT_SCALE. */
  function PctTolerance(t: Tolerance, reference: nat): nat {
    if reference == 0 then 0 else reference * t.pct
  }

  /** |a - b| is at most the larger of the absolute tolerance and pct of the larger magnitude. */
  predicate Within(t: Tolerance, a: int, b: int) {
    var diff := Abs(a - b);
    var reference := Max(Abs(a), Abs(b));
    diff * PCT_SCALE <= Max(t.absolute * PCT_SCALE, PctTolerance(t, reference))
  }

  function AllSourcesPresent(expected: seq<Source>, present: seq<Source>): (r: bool)
    ensures r <==> forall e :: e in expected ==> e in present
  {
    expected == [] || forall i :: 0 <= i < |expected| ==> expected[i] in present
  }

  // ---------------------------------------------------------------- the relation's shape

  lemma ProductMonotone(x: nat, y: nat, k: nat)
    requires x <= y
    ensures x * k <= y * k
  {}

  /** Holds even for a negative absolute tolerance, which the configuration check lets through. */
  lemma WithinReflexive(t: Tolerance, a: int)
    ensures Within(t, a, a)
  {}

  lemma WithinSymmetric(t: Tolerance, a: int, b: int)
    ensures Within(t, a, b) <==> Within(t, b, a)
  {
    assert Abs(a - b) == Abs(b - a);
    assert Max(Abs(a), Abs(b)) == Max(Abs(b), Abs(a));
  }

  /** Either threshold suffices, and one of them is needed: the absolute one, or the percentage of
      either amount. */
  lemma WithinIff(t: Tolerance, a: int, b: int)
    ensures var diff := if a < b then b - a else a - b;
      var size, other := if a < 0 then -a else a, if b < 0 then -b else b;
      Within(t, a, b) <==>
      diff <= t.absolute || diff * PCT_SCALE <= size * t.pct || diff * PCT_SCALE <= other * t.pct
  {
    ProductMonotone(Abs(a), Max(Abs(a), Abs(b)), t.pct);
    ProductMonotone(Abs(b), Max(Abs(a), Abs(b)), t.pct);
  }

  ghost predicate Transitive(t: Tolerance) {
    forall a, b, c :: Within(t, a, b) && Within(t, b, c) ==> Within(t, a, c)
  }

  /** Two amounts are within tolerance only when they are equal, or always. */
  predicate AllOrNothing(t: Tolerance) {
    (t.absolute <= 0 && t.pct == 0) || 2 * PCT_SCALE <= t.pct
  }

  lemma ProductPositive(x: int, y: int)
    requires 0 < x && 0 < y
    ensures 0 < x * y && x <= x * y && y <= x * y
  {}

  lemma ProductGrows(x: int, y: int, k: int)
    requires x < y && 0 < k
    ensures k * x < k * y
  {}

  lemma Distributes(x: int, k: int, j: int)
    ensures x * (k + j) == x * k + x * j
  {}

  lemma SumTimes(x: int, y: int, s: int)
    ensures (x + y) * s == x * s + y * s
  {}

  lemma Commutes(x: int, y: int, k: int)
    ensures x * y * k == x * k * y
  {}

  /** Shrink an amount by the fraction k/s, twice: each step is exactly that fraction of its larger
      amount, the two together are more than that of the largest. */
  lemma ShrinkTwice(s: int, k: int, m: int) returns (small: int, middle: int, big: int)
    requires 0 < k < s && 0 < m
    ensures 0 < small < middle < big
    ensures (big - middle) * s == big * k && (middle - small) * s == middle * k
    ensures big * k < (big - small) * s && m <= big - small
  {
    var j := s - k;
    var x, y := m * j, m * s;
    small, middle, big := x * j, x * s, y * s;
    ProductPositive(m, j);
    ProductPositive(m, s);
    ProductPositive(x, j);
    ProductPositive(x, k);
    ProductPositive(y, k);
    ProductGrows(j, s, m);
    Commutes(m, j, s);
    Distributes(y, k, j);
    Distributes(x, k, j);
    Commutes(y, k, s);
    Commutes(x, k, s);
    ProductPositive(middle, k);
    assert big - small == y * k + x * k;
    SumTimes(y * k, x * k, s);
  }

  /** The exact condition: tolerance is an equivalence only in the two extreme configurations. */
  lemma TransitiveIff(t: Tolerance)
    ensures Transitive(t) <==> AllOrNothing(t)
  {
    if AllOrNothing(t) {
      forall a, b, c | Within(t, a, b) && Within(t, b, c) ensures Within(t, a, c) {
        if 2 * PCT_SCALE <= t.pct { WithinEverything(t, a, c); }
      }
    } else {
      var a, b, c := Intransitive(t);
    }
  }

  lemma NearByPct(t: Tolerance, a: int, b: int)
    requires 0 <= a <= b && (b - a) * PCT_SCALE <= b * t.pct
    ensures Within(t, a, b)
  {}

  lemma Apart(t: Tolerance, a: int, b: int)
    requires Abs(a) <= b && a < b && b * t.pct < (b - a) * PCT_SCALE && t.absolute < b - a
    ensures !Within(t, a, b)
  {}

  /** Every other tolerance has a middle amount that agrees with two which do not agree. */
  lemma Intransitive(t: Tolerance) returns (low: int, middle: int, high: int)
    requires !AllOrNothing(t)
    ensures Within(t, low, middle) && Within(t, middle, high) && !Within(t, low, high)
  {
    var m := Max(t.absolute, 0) + 1;
    if t.pct == 0 {
      low, middle, high := 0, t.absolute, 2 * t.absolute;
    } else if t.pct < PCT_SCALE {
      low, middle, high := ShrinkTwice(PCT_SCALE, t.pct, m);
      hide Within;
      NearByPct(t, low, middle);
      NearByPct(t, middle, high);
      Apart(t, low, high);
    } else {
      low, middle, high := -m, 0, m;
      AroundZero(t, m);
    }
  }

  lemma AroundZero(t: Tolerance, m: int)
    requires PCT_SCALE <= t.pct < 2 * PCT_SCALE && t.absolute < m && 0 < m
    ensures Within(t, -m, 0) && Within(t, 0, m) && !Within(t, -m, m)
  {
    ProductGrows(t.pct, 2 * PCT_SCALE, m);
    Distributes(m, PCT_SCALE, t.pct - PCT_SCALE);
    Apart(t, -m, m);
  }

  /** The amounts accepted against each reference form an interval. */
  ghost predicate Convex(t: Tolerance) {
    forall r, lo, x, hi ::
      lo <= x <= hi && Within(t, lo, r) && Within(t, hi, r) ==> Within(t, x, r)
  }

  /** Moving x towards the reference r on the same side keeps it within, provided pct <= 100% or
      neither amount is negative. */
  lemma WithinTowards(t: Tolerance, r: int, x: int, far: int)
    requires r <= x <= far || far <= x <= r
    requires t.pct <= PCT_SCALE || (0 <= r && 0 <= x && 0 <= far)
    requires Within(t, far, r)
    ensures Within(t, x, r)
  {
    var dFar, dX := Abs(far - r), Abs(x - r);
    var mFar, mX := Max(Abs(far), Abs(r)), Max(Abs(x), Abs(r));
    if t.absolute * PCT_SCALE < dX * PCT_SCALE {
      assert dFar * PCT_SCALE <= mFar * t.pct;
      if mFar <= mX {
        ProductMonotone(mFar, mX, t.pct);
      } else if t.pct <= PCT_SCALE {
        // the magnitude shrinks no faster than the distance
        assert mFar - mX <= dFar - dX;
        ShrinkBounded(mFar, mX, t.pct);
      } else {
        ProductMonotone(dX, mX, PCT_SCALE);
        ProductMonotone2(mX, PCT_SCALE, t.pct);
      }
    }
  }

  lemma ProductMonotone2(x: nat, k: nat, l: nat)
    requires k <= l
    ensures x * k <= x * l
  {}

  lemma ShrinkBounded(big: nat, small: nat, k: nat)
    requires small <= big && k <= PCT_SCALE
    ensures big * k - small * k <= (big - small) * PCT_SCALE
  {}

  /** Non-negative amounts, or any amounts when pct <= 100% or pct >= 200%: `within r` is an
      interval. */
  lemma WithinConvex(t: Tolerance, r: int, lo: int, x: int, hi: int)
    requires lo <= x <= hi
    requires t.pct <= PCT_SCALE || 2 * PCT_SCALE <= t.pct || (0 <= r && 0 <= lo)
    requires Within(t, lo, r) && Within(t, hi, r)
    ensures Within(t, x, r)
  {
    if 2 * PCT_SCALE <= t.pct {
      WithinEverything(t, x, r);
    } else {
      WithinTowards(t, r, x, if x <= r then lo else hi);
    }
  }

  /** From 200% on, every two amounts are within tolerance. */
  lemma WithinEverything(t: Tolerance, a: int, b: int)
    requires 2 * PCT_SCALE <= t.pct
    ensures Within(t, a, b)
  {
    var m := Max(Abs(a), Abs(b));
    ProductMonotone2(m, 2 * PCT_SCALE, t.pct);
  }

  /** Strictly between 100% and 200% there is a gap: a negative reference accepts itself and a
      large positive amount, but not an amount in between. */
  lemma ConvexityGap(t: Tolerance) returns (r: int, x: int, hi: int)
    requires PCT_SCALE < t.pct < 2 * PCT_SCALE
    ensures r <= x <= hi && Within(t, r, r) && Within(t, hi, r) && !Within(t, x, r)
  {
    var n := Abs(t.absolute) + 1;
    var k := t.pct;
    r, x, hi := -n * PCT_SCALE, n * (k - PCT_SCALE) + 1, n * PCT_SCALE * PCT_SCALE;
    WithinReflexive(t, r);
    GapArithmetic(n, k);
    assert Abs(x - r) == n * k + 1;
    assert Max(Abs(x), Abs(r)) == n * PCT_SCALE;
    assert (n * PCT_SCALE) * k == n * k * PCT_SCALE;
    assert Abs(hi - r) == hi + n * PCT_SCALE;
    assert Max(Abs(hi), Abs(r)) == hi;
    ProductMonotone2(hi, PCT_SCALE + 1, k);
  }

  lemma GapArithmetic(n: nat, k: nat)
    requires 1 <= n && PCT_SCALE < k < 2 * PCT_SCALE
    ensures n * (k - PCT_SCALE) + 1 + n * PCT_SCALE == n * k + 1
    ensures 0 <= n * (k - PCT_SCALE) && n * (k - PCT_SCALE) + 1 <= n * PCT_SCALE
    ensures n <= n * k
  {}

  /** The exact condition: acceptance is an interval around every reference, over all amounts,
      iff the percentage is at most 100% or at least 200%. */
  lemma ConvexIff(t: Tolerance)
    ensures Convex(t) <==> t.pct <= PCT_SCALE || 2 * PCT_SCALE <= t.pct
  {
    if t.pct <= PCT_SCALE || 2 * PCT_SCALE <= t.pct {
      forall r, lo, x, hi | lo <= x <= hi && Within(t, lo, r) && Within(t, hi, r)
        ensures Within(t, x, r)
      {
        WithinConvex(t, r, lo, x, hi);
      }
    } else {
      var r, x, hi := ConvexityGap(t);
    }
  }

  /** Two amounts within tolerance of a common reference differ by at most twice the tolerance
      at the largest magnitude, although the relation is not transitive. */
  lemma CommonReferenceBound(t: Tolerance, a: int, b: int, r: int, m: nat)
    requires Within(t, a, r) && Within(t, b, r)
    requires Abs(a) <= m && Abs(b) <= m && Abs(r) <= m
    ensures Abs(a - b) * PCT_SCALE <= 2 * Max(t.absolute * PCT_SCALE, m * t.pct)
  {
    ProductMonotone(Max(Abs(a), Abs(r)), m, t.pct);
    ProductMonotone(Max(Abs(b), Abs(r)), m, t.pct);
    ProductMonotone(0, m, t.pct);
    assert Abs(a - b) <= Abs(a - r) + Abs(b - r);
  }
}
