/** The A/B verdict built from the tests: acceptance needs a significant result whose
    bootstrap interval excludes zero from below. */
module Verdict {
  import opened RealArith
  import opened RealSeqs
  import opened Percentiles
  import MW = MannWhitney
  import Bootstrap
  import Welch

  /** The figures of one trial that the verdict uses. */
  datatype Trial = Trial(avgFps: real, onePercentLow: real)

  /** A floating-point percentage: dividing by zero yields an infinity or NaN. */
  datatype Percent = Finite(value: real) | PlusInfinity | MinusInfinity | NaN {
    predicate AtLeast(x: real) { PlusInfinity? || (Finite? && value >= x) }
    predicate Above(x: real) { PlusInfinity? || (Finite? && value > x) }
    predicate Below(x: real) { MinusInfinity? || (Finite? && value < x) }
  }

  datatype Recommendation = Accepted | Borderline | Regression | Insignificant

  datatype Outcome =
    | Failed
    | Report(onePercentDelta: Percent, avgDelta: Percent, interval: (real, real),
             significant: bool, recommendation: Recommendation)

  /** The transcendental parts: the continued fraction and the normal tail. */
  datatype Tails = Tails(leaf: Welch.Leaf, normal: (real, real) -> real)

  function Relative(baseline: real, optimized: real): Percent {
    var diff := optimized - baseline;
    if baseline != 0.0 then Finite((diff / baseline) * 100.0)
    else if diff > 0.0 then PlusInfinity
    else if diff < 0.0 then MinusInfinity
    else NaN
  }

  function Lows(runs: seq<Trial>): seq<real> {
    seq(|runs|, i requires 0 <= i < |runs| => runs[i].onePercentLow)
  }

  function Averages(runs: seq<Trial>): seq<real> {
    seq(|runs|, i requires 0 <= i < |runs| => runs[i].avgFps)
  }

  function NormalP(tails: Tails, p: MW.PValue): real {
    match p
    case Exact(x) => x
    case NormalTail(shift, variance) => Clamp(tails.normal(shift, variance), 0.0, 1.0)
  }

  /** The p-value is the normal tail wherever that is a probability, and the nearer end of [0, 1]
      elsewhere. */
  lemma NormalPNearest(tails: Tails, p: MW.PValue, q: real)
    requires p.NormalTail? && 0.0 <= q <= 1.0
    ensures 0.0 <= NormalP(tails, p) <= 1.0
    ensures var x := tails.normal(p.shift, p.variance); Abs(NormalP(tails, p) - x) <= Abs(q - x)
  {
  }

  function TTestP(t: Welch.TTest): real {
    if t.TooFewSamples? then 1.0 else t.p
  }

  function Classify(significant: bool, onePercentDelta: Percent, avgDelta: Percent): Recommendation {
    if significant && (onePercentDelta.AtLeast(3.0) || avgDelta.AtLeast(3.0)) then Accepted
    else if significant && onePercentDelta.Above(0.0) then Borderline
    else if onePercentDelta.Below(-1.0) then Regression
    else Insignificant
  }

  /** The optimized figure exceeds the baseline by at least, or by more than, so many percent of
      the baseline; over a zero baseline any gain counts as infinite. */
  predicate GainsAtLeast(base: real, opt: real, percent: real) {
    if base == 0.0 then opt > 0.0
    else if base > 0.0 then 100.0 * (opt - base) >= percent * base
    else 100.0 * (opt - base) <= percent * base
  }

  predicate GainsMoreThan(base: real, opt: real, percent: real) {
    if base == 0.0 then opt > 0.0
    else if base > 0.0 then 100.0 * (opt - base) > percent * base
    else 100.0 * (opt - base) < percent * base
  }

  lemma RelativeIff(base: real, opt: real, percent: real)
    ensures Relative(base, opt).AtLeast(percent) <==> GainsAtLeast(base, opt, percent)
    ensures Relative(base, opt).Above(percent) <==> GainsMoreThan(base, opt, percent)
    ensures Relative(base, opt).Below(percent) <==> if base == 0.0 then opt < 0.0 else !GainsAtLeast(base, opt, percent)
  {
    if base != 0.0 {
      PercentOfBase((opt - base) / base, opt - base, base, percent);
    }
  }

  lemma PercentOfBase(q: real, diff: real, base: real, percent: real)
    requires base != 0.0 && q == diff / base
    ensures base > 0.0 ==> (q * 100.0 >= percent <==> 100.0 * diff >= percent * base)
    ensures base > 0.0 ==> (q * 100.0 > percent <==> 100.0 * diff > percent * base)
    ensures base < 0.0 ==> (q * 100.0 >= percent <==> 100.0 * diff <= percent * base)
    ensures base < 0.0 ==> (q * 100.0 > percent <==> 100.0 * diff < percent * base)
  {
    assert q * base == diff;
    var z := q * 100.0 - percent;
    assert z * base == 100.0 * diff - percent * base;
    SignOfProduct(z, base);
  }

  lemma SignOfProduct(z: real, base: real)
    requires base != 0.0
    ensures base > 0.0 ==> (z >= 0.0 <==> z * base >= 0.0) && (z > 0.0 <==> z * base > 0.0)
    ensures base < 0.0 ==> (z >= 0.0 <==> z * base <= 0.0) && (z > 0.0 <==> z * base < 0.0)
  {
  }

  /** The four verdicts in terms of the mean 1% lows and the mean fps. */
  lemma VerdictsExact(significant: bool, lowBase: real, lowOpt: real, fpsBase: real, fpsOpt: real)
    ensures var r := Classify(significant, Relative(lowBase, lowOpt), Relative(fpsBase, fpsOpt));
            var large := GainsAtLeast(lowBase, lowOpt, 3.0) || GainsAtLeast(fpsBase, fpsOpt, 3.0);
            var some := GainsMoreThan(lowBase, lowOpt, 0.0);
            var worse := if lowBase == 0.0 then lowOpt < 0.0 else !GainsAtLeast(lowBase, lowOpt, -1.0);
            && (r.Accepted? <==> significant && large)
            && (r.Borderline? <==> significant && !large && some)
            && (r.Regression? <==> !(significant && (large || some)) && worse)
            && (r.Insignificant? <==> !(significant && (large || some)) && !worse)
  {
    RelativeIff(lowBase, lowOpt, 3.0);
    RelativeIff(fpsBase, fpsOpt, 3.0);
    RelativeIff(lowBase, lowOpt, 0.0);
    RelativeIff(lowBase, lowOpt, -1.0);
  }

  predicate Favourable(r: Recommendation) {
    r.Accepted? || r.Borderline?
  }

  /** Some trial pair improves its 1% low. */
  ghost predicate SomePairImproves(base: seq<Trial>, opt: seq<Trial>) {
    |base| == |opt| && exists i :: 0 <= i < |base| && opt[i].onePercentLow > base[i].onePercentLow
  }

  /** The three conditions of significance, each by its reference definition: a t-test below
      0.01, the pair-counting U below 0.05, and a bootstrap interval above zero. */
  ghost predicate Significant(tails: Tails, a: seq<real>, b: seq<real>, low: real)
    requires |a| >= 2 && |b| >= 2
  {
    AllThree(TTestP(Welch.PairedTTestOf(tails.leaf, a, b)), TTestP(Welch.TTestOf(tails.leaf, a, b)),
             RankP(tails, a, b), low)
  }

  /** The p-value of the pair-counting U. */
  ghost function RankP(tails: Tails, a: seq<real>, b: seq<real>): real
    requires |a| >= 2 && |b| >= 2
  {
    NormalP(tails, MW.ExpectedP(a, b, MW.TwiceU(a, b) as real / 2.0))
  }

  /** The thresholds of the three conditions. */
  lemma SignificantIff(tails: Tails, a: seq<real>, b: seq<real>, low: real)
    requires |a| >= 2 && |b| >= 2
    ensures Significant(tails, a, b, low) <==>
            && (TTestP(Welch.TTestOf(tails.leaf, a, b)) < 0.01 || TTestP(Welch.PairedTTestOf(tails.leaf, a, b)) < 0.01)
            && RankP(tails, a, b) < 0.05 && low > 0.0
    ensures 0.0 <= RankP(tails, a, b) <= 1.0
    ensures |a| != |b| ==> TTestP(Welch.PairedTTestOf(tails.leaf, a, b)) == 1.0
  {
  }

  predicate AllThree(pairedP: real, welchP: real, rankP: real, low: real) {
    (pairedP < 0.01 || welchP < 0.01) && rankP < 0.05 && low > 0.0
  }

  /** Compare the trial sets. Whatever the tails evaluate to, a favourable verdict means that
      the trials are paired, that some pair improves, that the 1% lows are not all tied, and
      that the overall delta supports it. */
  method CompareTrials(tails: Tails, base: seq<Trial>, opt: seq<Trial>) returns (r: Outcome)
    ensures r.Failed? <==> |base| < 2 || |opt| < 2
    ensures r.Report? ==> r.recommendation == Classify(r.significant, r.onePercentDelta, r.avgDelta)
    ensures r.Report? ==> r.onePercentDelta == Relative(Mean(Lows(base)), Mean(Lows(opt)))
    ensures r.Report? ==> r.avgDelta == Relative(Mean(Averages(base)), Mean(Averages(opt)))
    ensures r.Report? && |base| != |opt| ==> r.interval == (0.0, 0.0)
    ensures r.Report? && |base| == |opt| ==>
              r.interval == Bootstrap.IntervalOf(Bootstrap.Deltas(Lows(base), Lows(opt), 2000, Bootstrap.SEED).0, 0.95)
    ensures r.Report? ==> (r.significant <==> Significant(tails, Lows(base), Lows(opt), r.interval.0))
    ensures r.Report? && r.significant ==> r.interval.0 > 0.0
    ensures r.Report? && r.significant ==> SomePairImproves(base, opt)
    ensures r.Report? && r.significant ==> !MW.OneRun(Sort(Lows(base) + Lows(opt)))
    ensures r.Report? && Favourable(r.recommendation) ==> r.significant
  {
    if base == [] || opt == [] {
      return Failed;
    }
    var a, b := Lows(base), Lows(opt);
    var avgDelta := Relative(Mean(Averages(base)), Mean(Averages(opt)));
    var lowDelta := Relative(Mean(a), Mean(b));
    var pairedP := TTestP(Welch.PairedTTestOf(tails.leaf, a, b));
    var welch := Welch.TTestOf(tails.leaf, a, b);
    if welch.TooFewSamples? {
      return Failed;
    }
    var u := MW.MannWhitneyUTest(a, b);
    var rankP := if u.UTest? then NormalP(tails, u.p) else 1.0;
    assert rankP == RankP(tails, a, b) by { assert u.u == MW.TwiceU(a, b) as real / 2.0; }
    var ci := Bootstrap.PairedInterval(a, b, 2000, 0.95);
    var interval := if ci.Interval? then (ci.low, ci.high) else (0.0, 0.0);
    var significant := AllThree(pairedP, welch.p, rankP, interval.0);
    if significant {
      PositiveLowNeedsImprovement(base, opt);
    }
    r := Report(lowDelta, avgDelta, interval, significant, Classify(significant, lowDelta, avgDelta));
  }

  lemma PositiveLowNeedsImprovement(base: seq<Trial>, opt: seq<Trial>)
    requires |base| == |opt| >= 2
    requires Bootstrap.IntervalOf(Bootstrap.Deltas(Lows(base), Lows(opt), 2000, Bootstrap.SEED).0, 0.95).0 > 0.0
    ensures SomePairImproves(base, opt)
  {
    var a, b := Lows(base), Lows(opt);
    if forall i :: 0 <= i < |a| ==> b[i] <= a[i] {
      Bootstrap.NoImprovementNoPositiveLow(a, b, 2000, Bootstrap.SEED, 0.95);
    } else {
      var i :| 0 <= i < |a| && b[i] > a[i];
      assert opt[i].onePercentLow > base[i].onePercentLow;
    }
  }
}
