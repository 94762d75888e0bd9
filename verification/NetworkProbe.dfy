/** The UDP latency probe: the counting loop and the jitter filter of section 6.4.1 of RFC 3550,
    applied to the differences of round-trip times. */
module NetworkProbe {
  import opened RealArith
  import opened RealSeqs
  import opened Percentiles
  import opened Dispersion

  /** What happens to one probe packet. A datagram carries its size, the sequence number read
      from it, and the clock before sending and after receiving. */
  datatype Reply =
    | SendFailed
    | Timeout
    | Datagram(amount: nat, sequence: nat, sentUs: nat, receivedUs: nat)

  datatype Report = Report(
    sent: nat, received: nat, lossPercent: real,
    minRtt: real, avgRtt: real, maxRtt: real, medianRtt: real,
    jitter: real, variance: real)

  const PAYLOAD: nat := 12

  predicate Answers(r: Reply, sequence: nat) {
    r.Datagram? && r.amount >= PAYLOAD && r.sequence == sequence
  }

  /** The round-trip time in milliseconds; a clock that ran backwards gives zero. */
  function Rtt(r: Reply): (ms: real)
    requires r.Datagram?
    ensures ms >= 0.0
  {
    (if r.receivedUs >= r.sentUs then r.receivedUs - r.sentUs else 0) as real / 1000.0
  }

  /** The packets that were answered, by position; the sequence numbers start at one. */
  ghost function Answered(replies: seq<Reply>): set<nat> {
    set k: nat | k < |replies| && Answers(replies[k], k + 1)
  }

  function Samples(replies: seq<Reply>): seq<real> {
    if replies == [] then []
    else
      var init, last := replies[..|replies| - 1], replies[|replies| - 1];
      Samples(init) + if Answers(last, |replies|) then [Rtt(last)] else []
  }

  /** One sample for each answered packet, none negative. */
  lemma {:induction false} SamplesAreAnswers(replies: seq<Reply>)
    ensures |Samples(replies)| == |Answered(replies)| <= |replies|
    ensures forall x :: x in Samples(replies) ==> x >= 0.0
  {
    if replies != [] {
      var n := |replies| - 1;
      var init, last := replies[..n], replies[n];
      SamplesAreAnswers(init);
      if Answers(last, n + 1) {
        assert Answered(replies) == Answered(init) + {n};
      } else {
        assert Answered(replies) == Answered(init);
      }
    } else {
      assert Answered(replies) == {};
    }
  }

  /** Each answered packet's sample stands behind those of the packets answered before it, and is
      its round trip in microseconds, never negative, over a thousand. */
  lemma {:induction false} SampleOfAnswer(replies: seq<Reply>, k: nat)
    requires k < |replies| && Answers(replies[k], k + 1)
    ensures var i := |Answered(replies[..k])|; i < |Samples(replies)| && Samples(replies)[i] == Rtt(replies[k])
    ensures 1000.0 * Rtt(replies[k]) == Saturating(replies[k].receivedUs, replies[k].sentUs) as real
  {
    var init := replies[..|replies| - 1];
    if k < |replies| - 1 {
      SampleOfAnswer(init, k);
      assert init[..k] == replies[..k];
    } else {
      SamplesAreAnswers(init);
      assert init == replies[..k];
    }
  }

  function Saturating(x: nat, y: nat): nat {
    if x <= y then 0 else x - y
  }

  // ----- the jitter filter -----

  function Differences(s: seq<real>): seq<real> {
    seq(if |s| == 0 then 0 else |s| - 1, i requires 0 <= i < |s| - 1 => Abs(s[i + 1] - s[i]))
  }

  /** (15/16) to the power k. */
  function Decay(k: nat): (r: real)
    ensures 0.0 < r <= 1.0
  {
    if k == 0 then 1.0 else Decay(k - 1) * 0.9375
  }

  /** The closed form: each difference weighs 1/16, decayed once for every later difference. */
  function Weighted(ds: seq<real>): real {
    if ds == [] then 0.0 else Scale(Decay(|ds| - 1), ds[0]) / 16.0 + Weighted(ds[1..])
  }

  lemma DecayScale(k: nat, x: real)
    ensures Scale(Decay(k + 1), x) == Scale(Decay(k), x) * 0.9375
  {
    var q := Decay(k);
    assert (q * 0.9375) * x == (q * x) * 0.9375;
  }

  lemma {:induction false} WeightedPush(ds: seq<real>, d: real)
    ensures Weighted(ds + [d]) == Weighted(ds) * 0.9375 + d / 16.0
  {
    if ds == [] {
      assert ds + [d] == [d];
      assert Scale(Decay(0), d) == d;
    } else {
      WeightedPush(ds[1..], d);
      DecayScale(|ds| - 1, ds[0]);
      assert (ds + [d])[1..] == ds[1..] + [d];
    }
  }

  ghost predicate Within(ds: seq<real>, bound: real) {
    forall i :: 0 <= i < |ds| ==> 0.0 <= ds[i] <= bound
  }

  /** The share of a bound that the filter can have reached after k differences. */
  function Reach(k: nat, bound: real): real {
    Scale(1.0 - Decay(k), bound)
  }

  lemma ReachStep(k: nat, bound: real)
    ensures Reach(k + 1, bound) == Reach(k, bound) + Scale(Decay(k), bound) / 16.0
  {
    var q := Decay(k);
    assert Decay(k + 1) == q * 0.9375;
    assert (1.0 - q * 0.9375) * bound == (1.0 - q) * bound + (q * bound) / 16.0;
  }

  lemma ScaleBounds(f: real, x: real, bound: real)
    requires f >= 0.0 && 0.0 <= x <= bound
    ensures 0.0 <= Scale(f, x) <= Scale(f, bound)
  {
  }

  /** The filter stays below that share of any bound of the differences, and reaches it when
      every difference is the bound. */
  lemma {:induction false} WeightedBounds(ds: seq<real>, bound: real)
    requires Within(ds, bound)
    ensures 0.0 <= Weighted(ds) <= Reach(|ds|, bound)
    ensures (forall i :: 0 <= i < |ds| ==> ds[i] == bound) ==> Weighted(ds) == Reach(|ds|, bound)
  {
    if ds == [] {
      assert Reach(0, bound) == 0.0;
    } else {
      WeightedBounds(ds[1..], bound);
      ReachStep(|ds| - 1, bound);
      ScaleBounds(Decay(|ds| - 1), ds[0], bound);
    }
  }

  /** J starts at zero and moves a sixteenth of the way to each new difference. */
  method Jitter(s: seq<real>) returns (jitter: real)
    ensures jitter == Weighted(Differences(s))
  {
    jitter := 0.0;
    var i := 1;
    ghost var ds := Differences(s);
    while i < |s|
      invariant 1 <= i && (i <= |s| || |s| == 0)
      invariant jitter == Weighted(ds[..if |s| == 0 then 0 else i - 1])
    {
      var d := Abs(s[i] - s[i - 1]);
      WeightedPush(ds[..i - 1], d);
      assert ds[..i - 1] + [d] == ds[..i];
      jitter := jitter + (d - jitter) / 16.0;
      i := i + 1;
    }
    assert ds[..|ds|] == ds;
  }

  // ----- the report -----

  function Least(s: seq<real>): (r: real)
    requires s != []
    ensures r in s && forall x :: x in s ==> r <= x
  {
    if |s| == 1 then s[0]
    else
      assert s == [s[0]] + s[1..];
      var r := Least(s[1..]);
      if s[0] < r then s[0] else r
  }

  function Greatest(s: seq<real>): (r: real)
    requires s != []
    ensures r in s && forall x :: x in s ==> x <= r
  {
    if |s| == 1 then s[0]
    else
      assert s == [s[0]] + s[1..];
      var r := Greatest(s[1..]);
      if s[0] > r then s[0] else r
  }

  function Variance(s: seq<real>, mean: real): (r: real)
    ensures r >= 0.0
  {
    if |s| > 1 then SquaredDeviations(s, mean) / (|s| - 1) as real else 0.0
  }

  ghost predicate Between(s: seq<real>, lo: real, hi: real) {
    forall i :: 0 <= i < |s| ==> lo <= s[i] <= hi
  }

  lemma {:induction false} MeanWithin(s: seq<real>, lo: real, hi: real)
    requires s != [] && Between(s, lo, hi)
    ensures lo <= Mean(s) <= hi
  {
    var n, total := |s| as real, Sum(s);
    SumBetween(s, lo, hi);
    QuotientWithin(total, n, lo, hi);
  }

  lemma QuotientWithin(total: real, n: real, lo: real, hi: real)
    requires n > 0.0 && n * lo <= total <= n * hi
    ensures lo <= total / n <= hi
  {
    QuotientAtLeast(total, n, lo);
    QuotientAtMost(total, n, hi);
  }

  lemma {:induction false} MedianWithin(s: seq<real>, lo: real, hi: real)
    requires s != [] && Between(s, lo, hi)
    ensures lo <= Percentile(Sort(s), 50.0) <= hi
  {
    var t := Sort(s);
    SortHasSameElements(s);
    PercentileMonotone(t, 50.0, 50.0);
    assert t[0] in s && t[|t| - 1] in s;
  }

  /** The jitter never exceeds the spread of the round-trip times, of which it has reached at
      most the share 1 - (15/16)^(n-1). */
  lemma {:induction false} JitterBounds(s: seq<real>, lo: real, hi: real)
    requires s != [] && Between(s, lo, hi)
    ensures 0.0 <= Weighted(Differences(s)) <= Reach(|s| - 1, hi - lo) <= hi - lo
  {
    var ds, spread := Differences(s), hi - lo;
    assert Within(ds, spread);
    WeightedBounds(ds, spread);
    assert lo <= s[0] <= hi;
    ScaleWithin(1.0 - Decay(|s| - 1), spread);
  }

  function LossPercent(sent: nat, received: nat): real {
    if sent > 0 then ((sent - received) as real / sent as real) * 100.0 else 0.0
  }

  lemma LossWithin(sent: nat, received: nat)
    requires 0 < received <= sent
    ensures 0.0 <= LossPercent(sent, received) < 100.0
    ensures LossPercent(sent, received) == 0.0 <==> received == sent
  {
    var lost, n := (sent - received) as real, sent as real;
    var q := lost / n;
    assert q * n == lost;
    assert q >= 1.0 ==> q * n >= n;
    assert q < 0.0 ==> q * n < 0.0;
  }

  /** The figures over at least one sample. */
  function Summary(sent: nat, samples: seq<real>, jitter: real): Report
    requires samples != []
  {
    var avg := Mean(samples);
    Report(sent, |samples|, LossPercent(sent, |samples|), Least(samples), avg, Greatest(samples),
           Percentile(Sort(samples), 50.0), jitter, Variance(samples, avg))
  }

  /** The figures of a report agree with each other. */
  ghost predicate Coherent(r: Report) {
    && 0.0 <= r.lossPercent < 100.0
    && (r.lossPercent == 0.0 <==> r.received == r.sent)
    && 0.0 <= r.minRtt <= r.avgRtt <= r.maxRtt
    && r.minRtt <= r.medianRtt <= r.maxRtt
    && r.received >= 1
    && 0.0 <= r.jitter <= Reach(r.received - 1, r.maxRtt - r.minRtt) <= r.maxRtt - r.minRtt
    && r.variance >= 0.0
  }

  lemma {:induction false} ExtremesBound(s: seq<real>)
    requires s != [] && forall x :: x in s ==> x >= 0.0
    ensures 0.0 <= Least(s) && Between(s, Least(s), Greatest(s))
  {
    forall i | 0 <= i < |s| ensures Least(s) <= s[i] <= Greatest(s) {
      assert s[i] in s;
    }
  }

  /** The bounds of each figure between given extremes. */
  lemma {:induction false} FiguresWithin(sent: nat, s: seq<real>, lo: real, hi: real)
    requires 1 <= |s| <= sent && 0.0 <= lo && Between(s, lo, hi)
    ensures Coherent(Report(sent, |s|, LossPercent(sent, |s|), lo, Mean(s), hi, Percentile(Sort(s), 50.0),
                            Weighted(Differences(s)), Variance(s, Mean(s))))
  {
    LossWithin(sent, |s|);
    MeanWithin(s, lo, hi);
    MedianWithin(s, lo, hi);
    JitterBounds(s, lo, hi);
    Assembled(sent, |s|, LossPercent(sent, |s|), lo, Mean(s), hi, Percentile(Sort(s), 50.0),
              Weighted(Differences(s)), Variance(s, Mean(s)));
  }

  lemma Assembled(sent: nat, received: nat, loss: real, lo: real, mean: real, hi: real, median: real,
                  jitter: real, variance: real)
    requires 0.0 <= loss < 100.0 && (loss == 0.0 <==> received == sent) && 1 <= received
    requires 0.0 <= lo <= mean <= hi && lo <= median <= hi && variance >= 0.0
    requires 0.0 <= jitter <= Reach(received - 1, hi - lo) <= hi - lo
    ensures Coherent(Report(sent, received, loss, lo, mean, hi, median, jitter, variance))
  {
  }

  lemma {:induction false} SummaryCoherent(sent: nat, samples: seq<real>)
    requires 1 <= |samples| <= sent
    requires forall x :: x in samples ==> x >= 0.0
    ensures Coherent(Summary(sent, samples, Weighted(Differences(samples))))
  {
    ExtremesBound(samples);
    FiguresWithin(sent, samples, Least(samples), Greatest(samples));
  }

  /** What the figures over at least one sample are. */
  ghost predicate Figures(r: Report, samples: seq<real>) {
    && samples != [] && Scale(r.lossPercent, r.sent as real) == 100.0 * (r.sent - r.received) as real
    && Scale(|samples| as real, r.avgRtt) == Sum(samples)
    && IsQuantile(samples, 50.0, r.medianRtt)
    && r.minRtt in samples && r.maxRtt in samples && Between(samples, r.minRtt, r.maxRtt)
    && IsVariance(r.variance, samples)
  }

  lemma {:induction false} SummaryFigures(sent: nat, samples: seq<real>, jitter: real, n: real)
    requires 1 <= |samples| <= sent && n == |samples| as real
    ensures Figures(Summary(sent, samples, jitter), samples)
  {
    var r := Summary(sent, samples, jitter);
    LossExact(sent, |samples|);
    MeanTimesSize(samples, n);
    PercentileIsQuantile(samples, 50.0);
    ExtremesHold(samples);
    VarianceFigure(samples, n);
  }

  lemma {:induction false} ExtremesHold(samples: seq<real>)
    requires samples != []
    ensures Between(samples, Least(samples), Greatest(samples))
  {
    forall i | 0 <= i < |samples| ensures Least(samples) <= samples[i] <= Greatest(samples) {
      assert samples[i] in samples;
    }
  }

  lemma {:induction false} VarianceFigure(samples: seq<real>, n: real)
    requires samples != [] && n == |samples| as real
    ensures IsVariance(Variance(samples, Mean(samples)), samples)
  {
    if |samples| > 1 {
      assert (|samples| - 1) as real == n - 1.0;
      VarianceIsPairs(samples, n, Variance(samples, Mean(samples)));
    }
  }

  lemma LossExact(sent: nat, received: nat)
    requires sent > 0
    ensures Scale(LossPercent(sent, received), sent as real) == 100.0 * (sent - received) as real
  {
    var q := (sent - received) as real / sent as real;
    QuotientTimes((sent - received) as real, sent as real, q);
    assert (q * 100.0) * sent as real == 100.0 * (q * sent as real);
  }

  /** Send one packet for each entry of `replies` and collect the round-trip times. */
  method Collect(replies: seq<Reply>) returns (sent: nat, received: nat, samples: seq<real>)
    ensures sent == |replies| && received == |samples|
    ensures samples == Samples(replies)
  {
    samples, sent, received := [], 0, 0;
    for i := 0 to |replies|
      invariant sent == i && received == |samples|
      invariant samples == Samples(replies[..i])
    {
      assert replies[..i + 1][..i] == replies[..i];
      sent := sent + 1;
      if replies[i].SendFailed? {
        continue;
      }
      if replies[i].Datagram? && replies[i].amount >= PAYLOAD && replies[i].sequence == i + 1 {
        samples := samples + [Rtt(replies[i])];
        received := received + 1;
      }
    }
    assert replies[..|replies|] == replies;
  }

  /** The whole probe. Without any sample the report is all zero and the loss is total, even
      when no packet was asked for. */
  method Probe(replies: seq<Reply>) returns (r: Report)
    ensures r.sent == |replies| && r.received == |Answered(replies)| <= r.sent
    ensures r.received == |Samples(replies)|
    ensures r.received == 0 ==> r == Report(|replies|, 0, 100.0, 0.0, 0.0, 0.0, 0.0, 0.0, 0.0)
    ensures r.received > 0 ==> Coherent(r) && r == Summary(|replies|, Samples(replies), r.jitter)
    ensures r.received > 0 ==> r.jitter == Weighted(Differences(Samples(replies))) && Figures(r, Samples(replies))
  {
    var sent, received, samples := Collect(replies);
    SamplesAreAnswers(replies);
    if samples == [] {
      return Report(sent, 0, 100.0, 0.0, 0.0, 0.0, 0.0, 0.0, 0.0);
    }
    var jitter := Jitter(samples);
    SummaryCoherent(sent, samples);
    SummaryFigures(sent, samples, jitter, |samples| as real);
    r := Summary(sent, samples, jitter);
  }
}
