/** Welch's t-test and the p-value recursion behind it. */
module Welch {
  import opened RealArith
  import opened RealSeqs
  import opened Dispersion

  /** The continued-fraction branch of the incomplete beta function, kept abstract. */
  type Leaf = (real, real, real) -> real

  /** Below this x the continued fraction is used directly; above it x is reflected. */
  function Threshold(a: real, b: real): real
    requires a + b + 2.0 != 0.0
  {
    (a + 1.0) / (a + b + 2.0)
  }

  lemma ThresholdsComplement(a: real, b: real)
    requires a + b + 2.0 != 0.0
    ensures Threshold(a, b) + Threshold(b, a) == 1.0
  {
    var d := a + b + 2.0;
    assert (a + 1.0) / d + (b + 1.0) / d == (a + 1.0 + (b + 1.0)) / d;
    assert b + a + 2.0 == d;
  }

  /** The regularized incomplete beta function with its symmetry recursion. */
  function Beta(leaf: Leaf, a: real, b: real, x: real): real
    requires a + b + 2.0 != 0.0
    decreases if x > Threshold(a, b) then 1 else 0
  {
    if x <= 0.0 then 0.0
    else if x >= 1.0 then 1.0
    else if x > Threshold(a, b) then
      ThresholdsComplement(a, b);
      1.0 - Beta(leaf, b, a, 1.0 - x)
    else leaf(a, b, x)
  }

  /** The recursion reflects at most once: a closed form. */
  lemma BetaReflectsOnce(leaf: Leaf, a: real, b: real, x: real)
    requires a + b + 2.0 != 0.0 && 0.0 < x < 1.0
    ensures Beta(leaf, a, b, x) == if x <= Threshold(a, b) then leaf(a, b, x) else 1.0 - leaf(b, a, 1.0 - x)
  {
    ThresholdsComplement(a, b);
  }

  /** The symmetry I_x(a,b) + I_{1-x}(b,a) = 1 is enforced by the code at every x, the ends and
      beyond included, except the threshold itself, where it holds exactly when the continued
      fractions agree. */
  lemma BetaSymmetric(leaf: Leaf, a: real, b: real, x: real)
    requires a + b + 2.0 != 0.0
    ensures Beta(leaf, a, b, x) + Beta(leaf, b, a, 1.0 - x) == 1.0
            <==> !(0.0 < x < 1.0) || x != Threshold(a, b) || leaf(a, b, x) + leaf(b, a, 1.0 - x) == 1.0
    ensures x <= 0.0 ==> Beta(leaf, a, b, x) == 0.0
  {
    ThresholdsComplement(a, b);
    if 0.0 < x < 1.0 {
      BetaReflectsOnce(leaf, a, b, x);
      BetaReflectsOnce(leaf, b, a, 1.0 - x);
    }
  }

  /** Two-tailed p-value from the squared t-statistic. */
  function TwoTailedP(leaf: Leaf, tSquared: real, df: real): real
    requires tSquared >= 0.0
  {
    if df <= 0.0 then 1.0
    else Beta(leaf, df / 2.0, 0.5, df / (df + tSquared))
  }

  lemma SquareNotNegative(x: real)
    ensures Scale(x, x) >= 0.0
  {
  }

  /** Variance of the mean: sample variance over the sample size. */
  function SquaredError(s: seq<real>): (r: real)
    requires |s| >= 2
    ensures r >= 0.0
  {
    var n := |s| as real;
    var ss := SquaredDeviations(s, Mean(s));
    QuotientAtLeast(ss, n - 1.0, 0.0);
    QuotientAtLeast(ss / (n - 1.0), n, 0.0);
    ss / (n - 1.0) / n
  }

  /** The Welch-Satterthwaite equation; the denominator is positive when some error is. */
  function DegreesOfFreedom(se1: real, se2: real, k1: real, k2: real): real
    requires se1 >= 0.0 && se2 >= 0.0 && se1 + se2 > 0.0 && k1 > 0.0 && k2 > 0.0
  {
    SpreadPositive(se1, se2, k1, k2);
    Scale(se1 + se2, se1 + se2) / Spread(se1, se2, k1, k2)
  }

  function Spread(se1: real, se2: real, k1: real, k2: real): real
    requires k1 > 0.0 && k2 > 0.0
  {
    Scale(se1, se1) / k1 + Scale(se2, se2) / k2
  }

  lemma SpreadPositive(se1: real, se2: real, k1: real, k2: real)
    requires se1 >= 0.0 && se2 >= 0.0 && se1 + se2 > 0.0 && k1 > 0.0 && k2 > 0.0
    ensures Spread(se1, se2, k1, k2) > 0.0
  {
    SquareNotNegative(se1);
    SquareNotNegative(se2);
    var q1, q2 := Scale(se1, se1) / k1, Scale(se2, se2) / k2;
    QuotientAtLeast(Scale(se1, se1), k1, 0.0);
    QuotientAtLeast(Scale(se2, se2), k2, 0.0);
    QuotientAtMost(Scale(se1, se1), k1, 0.0);
    QuotientAtMost(Scale(se2, se2), k2, 0.0);
    if se1 > 0.0 {
      ScalePositive(se1, se1);
    } else {
      ScalePositive(se2, se2);
    }
  }

  lemma ScalePositive(x: real, y: real)
    requires x > 0.0 && y > 0.0
    ensures Scale(x, y) > 0.0
  {
  }

  /** min(n1, n2) - 1 <= df <= n1 + n2 - 2, written with k = n - 1. */
  lemma DegreesOfFreedomBounds(se1: real, se2: real, k1: real, k2: real)
    requires se1 >= 0.0 && se2 >= 0.0 && se1 + se2 > 0.0 && k1 > 0.0 && k2 > 0.0
    ensures (if k1 <= k2 then k1 else k2) <= DegreesOfFreedom(se1, se2, k1, k2) <= k1 + k2
  {
    var m := if k1 <= k2 then k1 else k2;
    var num, den := Scale(se1 + se2, se1 + se2), Spread(se1, se2, k1, k2);
    SpreadPositive(se1, se2, k1, k2);
    CrossBounds(se1, se2, k1, k2, m, den);
    QuotientAtMost(num, den, k1 + k2);
    QuotientAtLeast(num, den, m);
  }

  lemma CrossBounds(se1: real, se2: real, k1: real, k2: real, m: real, den: real)
    requires se1 >= 0.0 && se2 >= 0.0 && k1 > 0.0 && k2 > 0.0 && 0.0 < m <= k1 && m <= k2
    requires den == Spread(se1, se2, k1, k2)
    ensures Scale(se1 + se2, se1 + se2) <= (k1 + k2) * den
    ensures m * den <= Scale(se1 + se2, se1 + se2)
  {
    var q1, q2 := se1 / k1, se2 / k2;
    QuotientTimes(se1, k1, q1);
    QuotientTimes(se2, k2, q2);
    QuotientForm(se1, k1, q1);
    QuotientForm(se2, k2, q2);
    CauchySchwarz(q1, q2, k1, k2);
    LowerCase(q1, q2, k1, k2, m);
  }

  lemma QuotientForm(se: real, k: real, q: real)
    requires k > 0.0 && q * k == se
    ensures Scale(se, se) / k == q * se
  {
    assert (q * se) * k == Scale(se, se) by { assert (q * se) * k == (q * k) * se; }
  }

  lemma CauchySchwarz(q1: real, q2: real, k1: real, k2: real)
    requires k1 > 0.0 && k2 > 0.0
    ensures Scale(q1 * k1 + q2 * k2, q1 * k1 + q2 * k2)
            <= (k1 + k2) * (q1 * (q1 * k1) + q2 * (q2 * k2))
  {
    var d := q1 - q2;
    assert (k1 + k2) * (q1 * (q1 * k1) + q2 * (q2 * k2))
           - (q1 * k1 + q2 * k2) * (q1 * k1 + q2 * k2) == (k1 * k2) * (d * d);
    SquareNotNegative(d);
    assert k1 * k2 > 0.0;
    MulMonotone(0.0, d * d, k1 * k2);
  }

  lemma LowerCase(q1: real, q2: real, k1: real, k2: real, m: real)
    requires k1 > 0.0 && k2 > 0.0 && 0.0 < m <= k1 && m <= k2 && q1 * k1 >= 0.0 && q2 * k2 >= 0.0
    ensures m * (q1 * (q1 * k1) + q2 * (q2 * k2)) <= Scale(q1 * k1 + q2 * k2, q1 * k1 + q2 * k2)
  {
    var s1, s2 := q1 * k1, q2 * k2;
    OneTerm(q1, k1, m);
    OneTerm(q2, k2, m);
    MulMonotone(0.0, s1, s2);
    assert (s1 + s2) * (s1 + s2) == s1 * s1 + s2 * s2 + 2.0 * (s1 * s2);
  }

  lemma OneTerm(q: real, k: real, m: real)
    requires k > 0.0 && m <= k && q * k >= 0.0
    ensures m * (q * (q * k)) <= (q * k) * (q * k)
  {
    CancelFactor(0.0, q, k);
    var s := q * k;
    MulMonotone(0.0, s, q);
    MulMonotone(m, k, q * s);
    assert k * (q * s) == s * s;
  }

  datatype TTest = TooFewSamples | NoSpread(df: real, p: real) | Tested(tSquared: real, df: real, p: real)

  /** The guard `sqrt(se1 + se2) <= 1e-12`, squared. */
  const MIN_SQUARED_ERROR: real := 0.000000000001 * 0.000000000001

  function SquaredT(diff: real, squaredError: real): (r: real)
    requires squaredError > 0.0
    ensures r >= 0.0
  {
    SquareNotNegative(diff);
    QuotientAtLeast(Scale(diff, diff), squaredError, 0.0);
    Scale(diff, diff) / squaredError
  }

  /** The test; the sign of t does not matter to the two-tailed p-value. */
  function TTestOf(leaf: Leaf, a: seq<real>, b: seq<real>): TTest {
    if |a| < 2 || |b| < 2 then TooFewSamples else
    var k1, k2 := |a| as real - 1.0, |b| as real - 1.0;
    var diff := Mean(b) - Mean(a);
    var se1, se2 := SquaredError(a), SquaredError(b);
    if se1 + se2 <= MIN_SQUARED_ERROR then
      NoSpread(k1 + k2, if Abs(diff) < 0.000000000001 then 1.0 else 0.0)
    else
      var df := DegreesOfFreedom(se1, se2, k1, k2);
      var tSquared := SquaredT(diff, se1 + se2);
      Tested(tSquared, df, TwoTailedP(leaf, tSquared, df))
  }

  /** The p-value without recursion: the beta argument x lies in (0, 1], and the continued
      fraction is evaluated at most once, at x or reflected at 1 - x. */
  ghost predicate IsTail(leaf: Leaf, tSquared: real, df: real, p: real) {
    && tSquared >= 0.0 && df >= 1.0
    && var x := df / (df + tSquared);
       && 0.0 < x <= 1.0
       && p == if x == 1.0 then 1.0
               else if x <= Threshold(df / 2.0, 0.5) then leaf(df / 2.0, 0.5, x)
               else 1.0 - leaf(0.5, df / 2.0, 1.0 - x)
  }

  /** Degrees of freedom always lie between the smaller sample size less one and the total
      less two, so the p-value's guard against df <= 0 is dead and its recursion finite. */
  lemma TTestBounds(leaf: Leaf, a: seq<real>, b: seq<real>)
    requires |a| >= 2 && |b| >= 2
    ensures var r := TTestOf(leaf, a, b);
            var m := if |a| <= |b| then |a| else |b|;
            && !r.TooFewSamples?
            && (m - 1) as real <= r.df <= (|a| + |b| - 2) as real
            && (r.Tested? ==> IsTail(leaf, r.tSquared, r.df, r.p))
  {
    var r := TTestOf(leaf, a, b);
    var se1, se2 := SquaredError(a), SquaredError(b);
    if se1 + se2 > MIN_SQUARED_ERROR {
      DegreesOfFreedomBounds(se1, se2, |a| as real - 1.0, |b| as real - 1.0);
      TailClosedForm(leaf, r.tSquared, r.df);
    }
  }

  lemma TailClosedForm(leaf: Leaf, tSquared: real, df: real)
    requires tSquared >= 0.0 && df >= 1.0
    ensures IsTail(leaf, tSquared, df, TwoTailedP(leaf, tSquared, df))
  {
    var x := df / (df + tSquared);
    QuotientAtMost(df, df + tSquared, 1.0);
    QuotientAtMost(df, df + tSquared, 0.0);
    if x < 1.0 {
      BetaReflectsOnce(leaf, df / 2.0, 0.5, x);
    }
  }

  function Differences(a: seq<real>, b: seq<real>): (d: seq<real>)
    requires |a| == |b|
    ensures |d| == |a| && forall i :: 0 <= i < |d| ==> d[i] == b[i] - a[i]
  {
    seq(|a|, i requires 0 <= i < |a| => b[i] - a[i])
  }

  /** The paired t-test on the per-pair differences; unequal or short samples are refused. */
  function PairedTTestOf(leaf: Leaf, a: seq<real>, b: seq<real>): TTest {
    if |a| != |b| || |a| < 2 then TooFewSamples else
    var d := Differences(a, b);
    var df := |a| as real - 1.0;
    var se := SquaredError(d);
    if se <= MIN_SQUARED_ERROR then
      NoSpread(df, if Abs(Mean(d)) < 0.000000000001 then 1.0 else 0.0)
    else
      var tSquared := SquaredT(Mean(d), se);
      Tested(tSquared, df, TwoTailedP(leaf, tSquared, df))
  }

  // ----- what the statistic is -----

  /** The squared error of a mean is fixed by the differences of all pairs:
      2 n^2 (n - 1) times it is the sum of their squares. */
  lemma {:induction false} ErrorIsPairs(s: seq<real>, n: real)
    requires |s| >= 2 && n == |s| as real
    ensures Twice(n, Scale(n * (n - 1.0), SquaredError(s))) == PairSquares(s, s)
  {
    DeviationsArePairs(s, n);
    ErrorTimes(SquaredDeviations(s, Mean(s)), n);
  }

  lemma ErrorTimes(ss: real, n: real)
    requires n > 1.0
    ensures Scale(n * (n - 1.0), ss / (n - 1.0) / n) == ss
  {
    var v := ss / (n - 1.0);
    var e := v / n;
    QuotientTimes(ss, n - 1.0, v);
    QuotientTimes(v, n, e);
    assert (n * (n - 1.0)) * e == (e * n) * (n - 1.0);
  }

  lemma SquaredTExact(diff: real, e: real)
    requires e > 0.0
    ensures Scale(SquaredT(diff, e), e) == Square(diff)
    ensures SquaredT(diff, e) == 0.0 <==> diff == 0.0
  {
    QuotientTimes(Scale(diff, diff), e, SquaredT(diff, e));
    if SquaredT(diff, e) == 0.0 && diff != 0.0 {
      NonZeroSquare(diff);
    }
  }

  lemma NonZeroSquare(x: real)
    requires x != 0.0
    ensures Scale(x, x) > 0.0
  {
    if x > 0.0 {
      ScalePositive(x, x);
    } else {
      ScalePositive(-x, -x);
      assert Scale(-x, -x) == Scale(x, x);
    }
  }

  /** The Welch-Satterthwaite equation without quotients. */
  ghost predicate FreedomEquation(df: real, e1: real, e2: real, k1: real, k2: real) {
    Scale(df, k2 * (e1 * e1) + k1 * (e2 * e2)) == Scale(k1 * k2, (e1 + e2) * (e1 + e2))
  }

  lemma FreedomExact(e1: real, e2: real, k1: real, k2: real)
    requires e1 >= 0.0 && e2 >= 0.0 && e1 + e2 > 0.0 && k1 > 0.0 && k2 > 0.0
    ensures FreedomEquation(DegreesOfFreedom(e1, e2, k1, k2), e1, e2, k1, k2)
  {
    var den := Spread(e1, e2, k1, k2);
    SpreadPositive(e1, e2, k1, k2);
    var df := DegreesOfFreedom(e1, e2, k1, k2);
    QuotientTimes(Scale(e1 + e2, e1 + e2), den, df);
    var s1, s2 := Scale(e1, e1) / k1, Scale(e2, e2) / k2;
    QuotientTimes(Scale(e1, e1), k1, s1);
    QuotientTimes(Scale(e2, e2), k2, s2);
    FreedomAlgebra(df, s1, s2, k1, k2, e1 * e1, e2 * e2, (e1 + e2) * (e1 + e2));
  }

  lemma FreedomAlgebra(df: real, s1: real, s2: real, k1: real, k2: real, x: real, y: real, z: real)
    requires s1 * k1 == x && s2 * k2 == y && df * (s1 + s2) == z
    ensures Scale(df, k2 * x + k1 * y) == Scale(k1 * k2, z)
  {
    assert k2 * (s1 * k1) + k1 * (s2 * k2) == (k1 * k2) * (s1 + s2);
    assert df * ((k1 * k2) * (s1 + s2)) == (k1 * k2) * (df * (s1 + s2));
  }

  lemma NoDifferenceIsCertain(leaf: Leaf, df: real)
    requires df > 0.0
    ensures TwoTailedP(leaf, 0.0, df) == 1.0
  {
    assert df / (df + 0.0) == 1.0;
  }

  /** What a t-test of a difference over a squared error says. */
  ghost predicate TestsDifference(r: TTest, diff: real, e: real) {
    && (r.Tested? <==> e > MIN_SQUARED_ERROR) && (r.NoSpread? <==> e <= MIN_SQUARED_ERROR)
    && (r.Tested? ==> Scale(r.tSquared, e) == Square(diff) && (r.tSquared == 0.0 <==> diff == 0.0))
    && (r.Tested? && diff == 0.0 ==> r.p == 1.0)
    && (r.NoSpread? ==> r.p == if Abs(diff) < 0.000000000001 then 1.0 else 0.0)
  }

  /** The test compares the means: t squared times the squared error is their squared difference,
      t is zero if and only if they are equal, and then p is 1; the degrees of freedom solve
      the Welch-Satterthwaite equation. */
  lemma TTestExact(leaf: Leaf, a: seq<real>, b: seq<real>)
    requires |a| >= 2 && |b| >= 2
    ensures var r, e1, e2 := TTestOf(leaf, a, b), SquaredError(a), SquaredError(b);
            && TestsDifference(r, Mean(b) - Mean(a), e1 + e2)
            && (r.Tested? ==> FreedomEquation(r.df, e1, e2, |a| as real - 1.0, |b| as real - 1.0))
  {
    var e1, e2 := SquaredError(a), SquaredError(b);
    var k1, k2 := |a| as real - 1.0, |b| as real - 1.0;
    if e1 + e2 > MIN_SQUARED_ERROR {
      SquaredTExact(Mean(b) - Mean(a), e1 + e2);
      FreedomExact(e1, e2, k1, k2);
      DegreesOfFreedomBounds(e1, e2, k1, k2);
      NoDifferenceIsCertain(leaf, DegreesOfFreedom(e1, e2, k1, k2));
    }
  }

  lemma PairedTTestExact(leaf: Leaf, a: seq<real>, b: seq<real>)
    ensures var r := PairedTTestOf(leaf, a, b);
            && (r.TooFewSamples? <==> |a| != |b| || |a| < 2)
            && (!r.TooFewSamples? ==>
                  && r.df == |a| as real - 1.0
                  && TestsDifference(r, Mean(Differences(a, b)), SquaredError(Differences(a, b)))
                  && (r.Tested? ==> IsTail(leaf, r.tSquared, r.df, r.p)))
  {
    if |a| == |b| && |a| >= 2 {
      var d := Differences(a, b);
      var e := SquaredError(d);
      if e > MIN_SQUARED_ERROR {
        SquaredTExact(Mean(d), e);
        NoDifferenceIsCertain(leaf, |a| as real - 1.0);
        TailClosedForm(leaf, SquaredT(Mean(d), e), |a| as real - 1.0);
      }
    }
  }

  // ----- what it does not depend on -----

  lemma {:induction false} ShiftedError(s: seq<real>, c: real)
    requires |s| >= 2
    ensures SquaredError(Shifted(s, c)) == SquaredError(s) && Mean(Shifted(s, c)) == Mean(s) + c
  {
    ShiftedMean(s, c, |s| as real);
  }

  lemma {:induction false} ScaledError(s: seq<real>, c: real)
    requires |s| >= 2
    ensures SquaredError(Scaled(s, c)) == Scale(Square(c), SquaredError(s)) && Mean(Scaled(s, c)) == Scale(c, Mean(s))
  {
    var n, ss := |s| as real, SquaredDeviations(s, Mean(s));
    ScaledMean(s, c, n);
    QuotientOfScale(ss, n - 1.0, Square(c));
    QuotientOfScale(ss / (n - 1.0), n, Square(c));
  }

  /** The origin of the measurements does not matter. */
  lemma {:induction false} TTestShifted(leaf: Leaf, a: seq<real>, b: seq<real>, c: real)
    ensures TTestOf(leaf, Shifted(a, c), Shifted(b, c)) == TTestOf(leaf, a, b)
  {
    if |a| >= 2 && |b| >= 2 {
      ShiftedError(a, c);
      ShiftedError(b, c);
    }
  }

  /** Nor does their unit, as long as the guard against no spread does not step in. */
  lemma {:induction false} TTestScaled(leaf: Leaf, a: seq<real>, b: seq<real>, c: real)
    requires c > 0.0 && TTestOf(leaf, a, b).Tested? && TTestOf(leaf, Scaled(a, c), Scaled(b, c)).Tested?
    ensures TTestOf(leaf, Scaled(a, c), Scaled(b, c)) == TTestOf(leaf, a, b)
  {
    ScaledError(a, c);
    ScaledError(b, c);
    var e1, e2, cc := SquaredError(a), SquaredError(b), Square(c);
    ScaledRatio(Mean(b) - Mean(a), e1 + e2, c, Scale(c, Mean(b)) - Scale(c, Mean(a)), Scale(cc, e1) + Scale(cc, e2));
    ScaledFreedom(e1, e2, |a| as real - 1.0, |b| as real - 1.0, cc, Scale(cc, e1), Scale(cc, e2));
  }

  lemma ScaledRatio(diff: real, e: real, c: real, cdiff: real, ce: real)
    requires c > 0.0 && e > 0.0 && ce > 0.0 && cdiff == Scale(c, diff) && ce == Scale(Square(c), e)
    ensures SquaredT(cdiff, ce) == SquaredT(diff, e)
  {
    var t := SquaredT(diff, e);
    QuotientTimes(Scale(diff, diff), e, t);
    assert Scale(cdiff, cdiff) == Square(c) * Scale(diff, diff);
    assert t * ce == Square(c) * (t * e);
    SameQuotient(Scale(cdiff, cdiff), ce, t);
  }

  lemma SameQuotient(x: real, d: real, q: real)
    requires d != 0.0 && q * d == x
    ensures x / d == q
  {
  }

  lemma ScaledFreedom(e1: real, e2: real, k1: real, k2: real, f: real, fe1: real, fe2: real)
    requires e1 >= 0.0 && e2 >= 0.0 && e1 + e2 > 0.0 && k1 > 0.0 && k2 > 0.0
    requires f > 0.0 && fe1 == Scale(f, e1) && fe2 == Scale(f, e2) && fe1 >= 0.0 && fe2 >= 0.0 && fe1 + fe2 > 0.0
    ensures DegreesOfFreedom(fe1, fe2, k1, k2) == DegreesOfFreedom(e1, e2, k1, k2)
  {
    var ff := f * f;
    var df, den := DegreesOfFreedom(e1, e2, k1, k2), Spread(e1, e2, k1, k2);
    SpreadPositive(e1, e2, k1, k2);
    SpreadPositive(fe1, fe2, k1, k2);
    QuotientTimes(Scale(e1 + e2, e1 + e2), den, df);
    ScaledTerm(e1, k1, f, fe1);
    ScaledTerm(e2, k2, f, fe2);
    var fden := Spread(fe1, fe2, k1, k2);
    assert fden == Scale(ff, den);
    ScaledNumerator(e1 + e2, f, fe1 + fe2);
    assert df * Scale(ff, den) == Scale(ff, df * den);
    SameQuotient(Scale(fe1 + fe2, fe1 + fe2), fden, df);
  }

  lemma ScaledTerm(e: real, k: real, f: real, fe: real)
    requires k > 0.0 && fe == Scale(f, e)
    ensures Scale(fe, fe) / k == Scale(f * f, Scale(e, e) / k)
  {
    assert Scale(fe, fe) == Scale(f * f, Scale(e, e));
    QuotientOfScale(Scale(e, e), k, f * f);
  }

  lemma ScaledNumerator(e: real, f: real, fe: real)
    requires fe == Scale(f, e)
    ensures Scale(fe, fe) == Scale(f * f, Scale(e, e))
  {
  }

  /** Which sample comes first does not matter to the two-sided test. */
  lemma TTestSwapped(leaf: Leaf, a: seq<real>, b: seq<real>)
    ensures TTestOf(leaf, b, a) == TTestOf(leaf, a, b)
  {
    if |a| >= 2 && |b| >= 2 {
      var e1, e2 := SquaredError(a), SquaredError(b);
      OppositeSquare(Mean(b) - Mean(a));
      assert Mean(a) - Mean(b) == -(Mean(b) - Mean(a));
      assert e1 + e2 == e2 + e1;
    }
  }

  lemma OppositeSquare(x: real)
    ensures Scale(-x, -x) == Scale(x, x)
  {
  }

  /** The paired test does not see what both members of a pair have in common: any drift over the
      trials leaves it unchanged. */
  lemma {:induction false} PairedTTestIgnoresDrift(leaf: Leaf, a: seq<real>, b: seq<real>, a': seq<real>, b': seq<real>,
                                                   drift: seq<real>)
    requires |a| == |b| == |a'| == |b'| == |drift|
    requires forall i :: 0 <= i < |a| ==> a'[i] == a[i] + drift[i] && b'[i] == b[i] + drift[i]
    ensures PairedTTestOf(leaf, a', b') == PairedTTestOf(leaf, a, b)
  {
    assert Differences(a', b') == Differences(a, b);
  }

  lemma {:induction false} PairedTTestScaled(leaf: Leaf, a: seq<real>, b: seq<real>, c: real)
    requires c > 0.0 && PairedTTestOf(leaf, a, b).Tested? && PairedTTestOf(leaf, Scaled(a, c), Scaled(b, c)).Tested?
    ensures PairedTTestOf(leaf, Scaled(a, c), Scaled(b, c)) == PairedTTestOf(leaf, a, b)
  {
    var d := Differences(a, b);
    ScaledDifferences(a, b, c);
    ScaledError(d, c);
    ScaledRatio(Mean(d), SquaredError(d), c, Scale(c, Mean(d)), Scale(Square(c), SquaredError(d)));
  }

  lemma {:induction false} ScaledDifferences(a: seq<real>, b: seq<real>, c: real)
    requires |a| == |b|
    ensures Differences(Scaled(a, c), Scaled(b, c)) == Scaled(Differences(a, b), c)
  {
    var d, e := Differences(a, b), Differences(Scaled(a, c), Scaled(b, c));
    forall i | 0 <= i < |a| ensures e[i] == Scaled(d, c)[i] {
      ScaledDifference(c, a[i], b[i]);
    }
  }

  lemma ScaledDifference(c: real, x: real, y: real)
    ensures Scale(c, y) - Scale(c, x) == Scale(c, y - x)
  {
  }

  /** Nor does it see which member comes first. */
  lemma {:induction false} PairedTTestSwapped(leaf: Leaf, a: seq<real>, b: seq<real>)
    ensures PairedTTestOf(leaf, b, a) == PairedTTestOf(leaf, a, b)
  {
    if |a| == |b| && |a| >= 2 {
      var d := Differences(a, b);
      OppositeDifferences(a, b);
      OppositeError(d);
      OppositeSquare(Mean(d));
    }
  }

  lemma {:induction false} OppositeDifferences(a: seq<real>, b: seq<real>)
    requires |a| == |b|
    ensures Differences(b, a) == Scaled(Differences(a, b), -1.0)
  {
    var d, e := Differences(a, b), Differences(b, a);
    forall i | 0 <= i < |a| ensures e[i] == Scaled(d, -1.0)[i] {
      assert Scale(-1.0, d[i]) == -d[i];
    }
  }

  lemma {:induction false} OppositeError(d: seq<real>)
    requires |d| >= 2
    ensures SquaredError(Scaled(d, -1.0)) == SquaredError(d) && Mean(Scaled(d, -1.0)) == -Mean(d)
  {
    ScaledError(d, -1.0);
    assert Square(-1.0) == 1.0;
    assert Scale(1.0, SquaredError(d)) == SquaredError(d);
  }
}
