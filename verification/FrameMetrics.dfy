/** Benchmark metrics of a run of frame times. */
module FrameMetrics {
  import opened RealArith
  import opened RealSeqs
  import opened Percentiles
  import opened Dispersion

  /** A quotient of a positive count: dividing by a zero duration gives infinity. */
  datatype Rate = Finite(value: real) | Infinite

  datatype Metrics = Metrics(
    totalFrames: nat, durationSeconds: real, avgFps: Rate,
    onePercentLowFps: real, zeroPointOnePercentLowFps: real, minFps: real, maxFps: real,
    frameTimeMeanMs: real, frameTimeVariance: real,
    p50: real, p90: real, p95: real, p99: real, p99_9: real,
    stutterCount1_5x: nat, stutterCount2_0x: nat)

  datatype Outcome = InsufficientSamples | Ok(metrics: Metrics)

  function FpsOf(frameTimeMs: real): real {
    if frameTimeMs > 0.0 then 1000.0 / frameTimeMs else 0.0
  }

  function CountAtLeast(s: seq<real>, threshold: real): nat {
    if s == [] then 0 else (if s[0] >= threshold then 1 else 0) + CountAtLeast(s[1..], threshold)
  }

  function FrameVariance(active: seq<real>, mean: real): real {
    if |active| > 1 then SquaredDeviations(active, mean) / (|active| as real - 1.0) else 0.0
  }

  /** The report, given the active frame times, their ascending order, sum and mean. */
  function Summarize(active: seq<real>, sorted: seq<real>, total: real, mean: real): Metrics
    requires active != [] && sorted != []
  {
    var n := |active| as real;
    var duration := total / 1000.0;
    Metrics(
      |active|,
      duration,
      if duration == 0.0 then Infinite else Finite(n / duration),
      FpsOf(Percentile(sorted, 99.0)),
      FpsOf(Percentile(sorted, 99.9)),
      FpsOf(sorted[|sorted| - 1]),
      FpsOf(sorted[0]),
      mean,
      FrameVariance(active, mean),
      Percentile(sorted, 50.0),
      Percentile(sorted, 90.0),
      Percentile(sorted, 95.0),
      Percentile(sorted, 99.0),
      Percentile(sorted, 99.9),
      CountAtLeast(sorted, mean * 1.5),
      CountAtLeast(sorted, mean * 2.0))
  }

  /** Discard the warm-up frames and summarize the rest. */
  function ComputeMetrics(frameTimes: seq<real>, warmupFrames: nat): (r: Outcome)
    ensures r.InsufficientSamples? <==> |frameTimes| <= warmupFrames
  {
    if |frameTimes| <= warmupFrames then InsufficientSamples else
    var active := frameTimes[warmupFrames..];
    var total := Sum(active);
    Ok(Summarize(active, Sort(active), total, total / |active| as real))
  }

  lemma FpsAntitone(t: real, u: real)
    requires 0.0 < t <= u
    ensures 0.0 < FpsOf(u) <= FpsOf(t)
  {
    QuotientAtMost(1000.0, u, FpsOf(t));
    MulMonotone(t, u, FpsOf(t));
  }

  /** For positive frame times every reported figure is in order: the percentiles ascend,
      and min fps <= 0.1% low <= 1% low <= max fps, with the average between min and max. */
  lemma MetricsOrdered(frameTimes: seq<real>, warmup: nat)
    requires warmup < |frameTimes|
    requires forall t :: t in frameTimes[warmup..] ==> t > 0.0
    ensures Ordered(ComputeMetrics(frameTimes, warmup).metrics)
  {
    var active := frameTimes[warmup..];
    SummaryOrdered(active, Sum(active) / |active| as real);
  }

  ghost predicate Ordered(m: Metrics) {
    && m.p50 <= m.p90 <= m.p95 <= m.p99 <= m.p99_9
    && 0.0 < m.minFps <= m.zeroPointOnePercentLowFps <= m.onePercentLowFps <= m.maxFps
    && m.avgFps.Finite? && m.minFps <= m.avgFps.value <= m.maxFps
  }

  lemma {:induction false} SummaryOrdered(active: seq<real>, mean: real)
    requires active != [] && forall t :: t in active ==> t > 0.0
    ensures Ordered(Summarize(active, Sort(active), Sum(active), mean))
  {
    var s := Sort(active);
    WithinExtremes(active);
    AverageBetween(active, s[0], s[|s| - 1]);
    OrderedFrom(active, s, Sum(active), mean);
  }

  lemma {:induction false} OrderedFrom(active: seq<real>, s: seq<real>, total: real, mean: real)
    requires active != [] && Sorted(s) && s != [] && s[0] > 0.0 && total > 0.0
    requires FpsOf(s[|s| - 1]) <= |active| as real / (total / 1000.0) <= FpsOf(s[0])
    ensures Ordered(Summarize(active, s, total, mean))
  {
    PercentilesAscend(s);
    LowsOrdered(s);
  }

  lemma {:induction false} WithinExtremes(active: seq<real>)
    requires active != []
    ensures var s := Sort(active);
            s[0] in active && forall t :: t in active ==> s[0] <= t <= s[|s| - 1]
  {
    var s := Sort(active);
    SortHasSameElements(active);
    assert s[0] in s;
    forall t | t in active ensures s[0] <= t <= s[|s| - 1] {
      var i :| 0 <= i < |s| && s[i] == t;
    }
  }

  lemma PercentilesAscend(s: seq<real>)
    requires Sorted(s)
    ensures Percentile(s, 50.0) <= Percentile(s, 90.0) <= Percentile(s, 95.0)
            <= Percentile(s, 99.0) <= Percentile(s, 99.9)
  {
    PercentileMonotone(s, 50.0, 90.0);
    PercentileMonotone(s, 90.0, 95.0);
    PercentileMonotone(s, 95.0, 99.0);
    PercentileMonotone(s, 99.0, 99.9);
  }

  lemma LowsOrdered(s: seq<real>)
    requires Sorted(s) && s != [] && s[0] > 0.0
    ensures 0.0 < FpsOf(s[|s| - 1]) <= FpsOf(Percentile(s, 99.9)) <= FpsOf(Percentile(s, 99.0)) <= FpsOf(s[0])
  {
    PercentileMonotone(s, 99.0, 99.9);
    FpsAntitone(s[0], Percentile(s, 99.0));
    FpsAntitone(Percentile(s, 99.0), Percentile(s, 99.9));
    FpsAntitone(Percentile(s, 99.9), s[|s| - 1]);
  }

  lemma {:induction false} AverageBetween(active: seq<real>, lo: real, hi: real)
    requires active != [] && 0.0 < lo && forall t :: t in active ==> lo <= t <= hi
    ensures Sum(active) > 0.0
    ensures FpsOf(hi) <= |active| as real / (Sum(active) / 1000.0) <= FpsOf(lo)
  {
    assert active[0] in active;
    SumBetween(active, lo, hi);
    var n, total := |active| as real, Sum(active);
    MulMonotone(1.0, n, lo);
    FpsBounds(n, total / 1000.0, lo, hi);
  }

  lemma FpsBounds(n: real, seconds: real, lo: real, hi: real)
    requires 0.0 < lo <= hi && n >= 1.0 && 0.0 < seconds
    requires n * lo <= 1000.0 * seconds <= n * hi
    ensures FpsOf(hi) <= n / seconds <= FpsOf(lo)
  {
    QuotientAtMost(n, seconds, FpsOf(lo));
    QuotientAtLeast(n, seconds, FpsOf(hi));
    MulMonotone(n * lo, 1000.0 * seconds, FpsOf(lo));
    MulMonotone(1000.0 * seconds, n * hi, FpsOf(hi));
    FpsTimesSpan(n, lo);
    FpsTimesSpan(n, hi);
  }

  lemma FpsTimesSpan(n: real, t: real)
    requires t > 0.0
    ensures (n * t) * FpsOf(t) == 1000.0 * n
  {
    SpanTimesRate(n, t, FpsOf(t));
  }

  lemma SpanTimesRate(n: real, t: real, f: real)
    requires f * t == 1000.0
    ensures (n * t) * f == 1000.0 * n
  {
    assert (n * t) * f == n * (f * t);
  }

  /** Markov: k values of at least c >= 0 among non-negative ones weigh at least k*c. */
  lemma {:induction false} CountTimesThreshold(s: seq<real>, c: real)
    requires c >= 0.0 && forall t :: t in s ==> t >= 0.0
    ensures CountAtLeast(s, c) as real * c <= Sum(s)
  {
    if s != [] {
      assert s[0] in s;
      assert forall t :: t in s[1..] ==> t in s;
      CountTimesThreshold(s[1..], c);
      OneMoreValue(CountAtLeast(s[1..], c), c, s[0], Sum(s[1..]));
    }
  }

  lemma OneMoreValue(k: nat, c: real, t: real, rest: real)
    requires c >= 0.0 && t >= 0.0 && k as real * c <= rest
    ensures k as real * c <= t + rest
    ensures t >= c ==> (k + 1) as real * c <= t + rest
  {
    var x := k as real;
    assert (x + 1.0) * c == x * c + c;
  }

  lemma {:induction false} CountAll(s: seq<real>, c: real)
    requires forall t :: t in s ==> t >= c
    ensures CountAtLeast(s, c) == |s|
  {
    if s != [] {
      assert s[0] in s;
      assert forall t :: t in s[1..] ==> t in s;
      CountAll(s[1..], c);
    }
  }

  /** Stutter counts of non-negative frame times: at most half of the frames reach twice the
      mean and at most two thirds reach one and a half times it, unless all times are zero. */
  lemma StutterBounds(frameTimes: seq<real>, warmup: nat)
    requires warmup < |frameTimes|
    requires forall t :: t in frameTimes[warmup..] ==> t >= 0.0
    ensures StuttersBounded(ComputeMetrics(frameTimes, warmup).metrics)
  {
    var active := frameTimes[warmup..];
    var s, total, mean := Sort(active), Sum(active), Sum(active) / |active| as real;
    SortKeepsLowerBound(active, 0.0);
    SumSort(active);
    SummaryStutters(active, s, total, mean);
  }

  lemma {:induction false} SortKeepsLowerBound(s: seq<real>, lo: real)
    requires forall t :: t in s ==> t >= lo
    ensures forall t :: t in Sort(s) ==> t >= lo
  {
    SortHasSameElements(s);
  }

  lemma {:induction false} SummaryStutters(active: seq<real>, s: seq<real>, total: real, mean: real)
    requires active != [] && |s| == |active| && total == Sum(s) && forall t :: t in s ==> t >= 0.0
    requires mean == total / |s| as real
    ensures StuttersBounded(Summarize(active, s, total, mean))
  {
    SummaryFields(active, s, total, mean);
    StuttersOfMean(s, mean);
  }

  lemma {:induction false} SummaryFields(active: seq<real>, sorted: seq<real>, total: real, mean: real)
    requires active != [] && sorted != []
    ensures var m := Summarize(active, sorted, total, mean);
            && m.totalFrames == |active| && m.durationSeconds == total / 1000.0
            && m.stutterCount1_5x == CountAtLeast(sorted, mean * 1.5)
            && m.stutterCount2_0x == CountAtLeast(sorted, mean * 2.0)
  {
  }

  ghost predicate StuttersBounded(m: Metrics) {
    && (m.durationSeconds > 0.0 <==> 2 * m.stutterCount2_0x <= m.totalFrames)
    && (m.durationSeconds > 0.0 <==> 3 * m.stutterCount1_5x <= 2 * m.totalFrames)
    && m.stutterCount2_0x <= m.stutterCount1_5x
  }

  lemma StuttersOfMean(s: seq<real>, mean: real)
    requires s != [] && mean == Sum(s) / |s| as real && forall t :: t in s ==> t >= 0.0
    ensures Sum(s) > 0.0 <==> 2 * CountAtLeast(s, mean * 2.0) <= |s|
    ensures Sum(s) > 0.0 <==> 3 * CountAtLeast(s, mean * 1.5) <= 2 * |s|
    ensures CountAtLeast(s, mean * 2.0) <= CountAtLeast(s, mean * 1.5)
  {
    QuotientTimes(Sum(s), |s| as real, mean);
    StutterCounts(s, mean);
  }

  lemma StutterCounts(s: seq<real>, mean: real)
    requires s != [] && mean * |s| as real == Sum(s) && forall t :: t in s ==> t >= 0.0
    ensures Sum(s) > 0.0 <==> 2 * CountAtLeast(s, mean * 2.0) <= |s|
    ensures Sum(s) > 0.0 <==> 3 * CountAtLeast(s, mean * 1.5) <= 2 * |s|
    ensures CountAtLeast(s, mean * 2.0) <= CountAtLeast(s, mean * 1.5)
  {
    var n := |s| as real;
    SumAtLeastZero(s);
    if Sum(s) > 0.0 {
      StutterBound(s, 2.0, mean);
      StutterBound(s, 1.5, mean);
    } else {
      assert mean == 0.0;
      CountAll(s, 0.0);
    }
    MeanNotNegative(mean, n);
    CountAntitone(s, mean * 1.5, mean * 2.0);
  }

  lemma MeanNotNegative(mean: real, n: real)
    requires n > 0.0 && mean * n >= 0.0
    ensures mean >= 0.0
  {
    CancelFactor(0.0, mean, n);
  }

  lemma StutterBound(s: seq<real>, factor: real, mean: real)
    requires s != [] && Sum(s) > 0.0 && mean * |s| as real == Sum(s) && factor > 0.0
    requires forall t :: t in s ==> t >= 0.0
    ensures CountAtLeast(s, mean * factor) as real * factor <= |s| as real
  {
    assert mean > 0.0 by { if mean <= 0.0 { MulMonotone(mean, 0.0, |s| as real); } }
    CountTimesThreshold(s, mean * factor);
    CancelMean(CountAtLeast(s, mean * factor) as real, factor, mean, |s| as real);
  }

  lemma {:induction false} SumAtLeastZero(s: seq<real>)
    requires forall t :: t in s ==> t >= 0.0
    ensures Sum(s) >= 0.0
  {
    CountTimesThreshold(s, 0.0);
  }

  lemma CancelMean(count: real, factor: real, mean: real, n: real)
    requires mean > 0.0 && count * (mean * factor) <= mean * n
    ensures count * factor <= n
  {
    CancelFactor(count * factor, n, mean);
  }

  lemma {:induction false} CountAntitone(s: seq<real>, c: real, d: real)
    requires c <= d
    ensures CountAtLeast(s, d) <= CountAtLeast(s, c)
  {
    if s != [] {
      CountAntitone(s[1..], c, d);
    }
  }

  // ----- what each figure is -----

  ghost predicate IsFps(frameTime: real, fps: real) {
    if frameTime > 0.0 then Scale(fps, frameTime) == 1000.0 else fps == 0.0
  }

  lemma FpsIsRate(frameTime: real)
    ensures IsFps(frameTime, FpsOf(frameTime))
  {
    if frameTime > 0.0 {
      QuotientTimes(1000.0, frameTime, FpsOf(frameTime));
    }
  }

  /** Every figure by what it means: the rates as reciprocals, the percentiles as quantiles of the
      active frame times, mean and variance by sums over frames and over pairs of frames. */
  ghost predicate Exact(m: Metrics, active: seq<real>) {
    && active != [] && m.totalFrames == |active| && 1000.0 * m.durationSeconds == Sum(active)
    && Scale(|active| as real, m.frameTimeMeanMs) == Sum(active)
    && (m.avgFps.Infinite? <==> Sum(active) == 0.0)
    && (m.avgFps.Finite? ==> Scale(m.avgFps.value, m.durationSeconds) == |active| as real)
    && IsVariance(m.frameTimeVariance, active)
  }

  ghost predicate ExactQuantiles(m: Metrics, active: seq<real>) {
    && IsQuantile(active, 50.0, m.p50) && IsQuantile(active, 90.0, m.p90) && IsQuantile(active, 95.0, m.p95)
    && IsQuantile(active, 99.0, m.p99) && IsQuantile(active, 99.9, m.p99_9)
    && IsFps(m.p99, m.onePercentLowFps) && IsFps(m.p99_9, m.zeroPointOnePercentLowFps)
    && IsFps(Sort(active)[|active| - 1], m.minFps) && IsFps(Sort(active)[0], m.maxFps)
  }

  lemma {:induction false} SummaryExact(active: seq<real>, n: real, mean: real)
    requires active != [] && n == |active| as real && mean == Mean(active)
    ensures Exact(Summarize(active, Sort(active), Sum(active), mean), active)
  {
    var m := Summarize(active, Sort(active), Sum(active), mean);
    MeanTimesSize(active, n);
    VarianceField(active, n, mean);
    RateField(active, n, mean, m);
  }

  lemma {:induction false} VarianceField(active: seq<real>, n: real, mean: real)
    requires active != [] && n == |active| as real && mean == Mean(active)
    ensures IsVariance(FrameVariance(active, mean), active)
  {
    if |active| > 1 {
      VarianceIsPairs(active, n, FrameVariance(active, mean));
    }
  }

  lemma {:induction false} RateField(active: seq<real>, n: real, mean: real, m: Metrics)
    requires active != [] && n == |active| as real && m == Summarize(active, Sort(active), Sum(active), mean)
    ensures m.avgFps.Infinite? <==> Sum(active) == 0.0
    ensures m.avgFps.Finite? ==> Scale(m.avgFps.value, m.durationSeconds) == n
  {
    if m.durationSeconds != 0.0 {
      QuotientScaled(n, m.durationSeconds, m.avgFps.value);
    }
  }

  lemma {:induction false} SummaryQuantiles(active: seq<real>, mean: real)
    requires active != []
    ensures ExactQuantiles(Summarize(active, Sort(active), Sum(active), mean), active)
  {
    var s := Sort(active);
    PercentileIsQuantile(active, 50.0);
    PercentileIsQuantile(active, 90.0);
    PercentileIsQuantile(active, 95.0);
    PercentileIsQuantile(active, 99.0);
    PercentileIsQuantile(active, 99.9);
    FpsIsRate(Percentile(s, 99.0));
    FpsIsRate(Percentile(s, 99.9));
    FpsIsRate(s[|s| - 1]);
    FpsIsRate(s[0]);
  }

  lemma {:induction false} MetricsExact(frameTimes: seq<real>, warmup: nat)
    requires warmup < |frameTimes|
    ensures var m := ComputeMetrics(frameTimes, warmup).metrics;
            Exact(m, frameTimes[warmup..]) && ExactQuantiles(m, frameTimes[warmup..])
  {
    var active := frameTimes[warmup..];
    SummaryExact(active, |active| as real, Mean(active));
    SummaryQuantiles(active, Mean(active));
  }
}
