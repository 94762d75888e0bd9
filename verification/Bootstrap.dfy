/** The paired bootstrap confidence interval of a percentage delta, with its xorshift64
    generator. */
module Bootstrap {
  import opened RealArith
  import opened RealSeqs
  import opened Percentiles

  const SEED: bv64 := 0x9E3779B97F4A7C15

  function XorLeft13(s: bv64): bv64 { s ^ (s << 13) }
  function XorRight7(s: bv64): bv64 { s ^ (s >> 7) }
  function XorLeft17(s: bv64): bv64 { s ^ (s << 17) }

  /** One step of the generator; the new state is also the number drawn. */
  function NextRand(s: bv64): bv64 {
    XorLeft17(XorRight7(XorLeft13(s)))
  }

  lemma LeftStep13(s: bv64)
    ensures XorLeft13(s) == 0 ==> s == 0
  {
  }

  lemma RightStep7(s: bv64)
    ensures XorRight7(s) == 0 ==> s == 0
  {
  }

  lemma LeftStep17(s: bv64)
    ensures XorLeft17(s) == 0 ==> s == 0
  {
  }

  /** A shift-and-xor loses nothing, so no non-zero state ever becomes zero. */
  lemma NextRandNeverZero(s: bv64)
    requires s != 0
    ensures NextRand(s) != 0
  {
    LeftStep13(s);
    RightStep7(XorLeft13(s));
    LeftStep17(XorRight7(XorLeft13(s)));
  }

  ghost predicate Below(idx: seq<nat>, n: nat) {
    forall k :: 0 <= k < |idx| ==> idx[k] < n
  }

  /** `count` indices below `n` drawn from state `s`, and the state afterwards. */
  function Draw(n: nat, count: nat, s: bv64): (r: (seq<nat>, bv64))
    requires n > 0
    ensures |r.0| == count && Below(r.0, n)
  {
    if count == 0 then ([], s)
    else
      var (xs, t) := Draw(n, count - 1, s);
      var t' := NextRand(t);
      IndexInRange(t', n);
      (xs + [IndexFrom(t', n)], t')
  }

  /** The position that a generator state picks among `n`. */
  function IndexFrom(t: bv64, n: nat): nat
    requires n > 0
  {
    t as nat % n
  }

  lemma IndexInRange(t: bv64, n: nat)
    requires n > 0
    ensures IndexFrom(t, n) < n
  {
    RemainderInRange(t as nat, n);
  }

  lemma RemainderInRange(x: nat, n: nat)
    requires n > 0
    ensures x % n < n
  {
  }

  lemma {:induction false} DrawOneMore(n: nat, count: nat, s: bv64, xs: seq<nat>, t: bv64)
    requires n > 0 && Draw(n, count, s) == (xs, t)
    ensures Draw(n, count + 1, s) == (xs + [IndexFrom(NextRand(t), n)], NextRand(t))
  {
  }

  lemma {:induction false} DrawNeverZero(n: nat, count: nat, s: bv64)
    requires n > 0 && s != 0
    ensures Draw(n, count, s).1 != 0
  {
    if count > 0 {
      DrawNeverZero(n, count - 1, s);
      NextRandNeverZero(Draw(n, count - 1, s).1);
    }
  }

  /** The sum of the sampled values. */
  function PickSum(a: seq<real>, idx: seq<nat>): real
    requires Below(idx, |a|)
  {
    if idx == [] then 0.0
    else
      PickSum(a, idx[..|idx| - 1]) + a[idx[|idx| - 1]]
  }

  lemma {:induction false} PickOneMore(a: seq<real>, idx: seq<nat>, i: nat)
    requires Below(idx, |a|) && i < |a|
    ensures Below(idx + [i], |a|) && PickSum(a, idx + [i]) == PickSum(a, idx) + a[i]
  {
    assert (idx + [i])[..|idx|] == idx;
  }

  function PercentDelta(meanA: real, meanB: real): real
    requires meanA > 0.0
  {
    ((meanB - meanA) / meanA) * 100.0
  }

  function DeltaOf(sumA: real, sumB: real, n: nat): seq<real>
    requires n > 0
  {
    var meanA, meanB := sumA / n as real, sumB / n as real;
    if meanA > 0.0 then [PercentDelta(meanA, meanB)] else []
  }

  /** The delta of one replication: nothing when the resampled baseline is not positive. */
  function Replicate(a: seq<real>, b: seq<real>, idx: seq<nat>): seq<real>
    requires |a| == |b| > 0 && Below(idx, |a|)
  {
    DeltaOf(PickSum(a, idx), PickSum(b, idx), |a|)
  }

  /** The deltas of `k` replications from state `s`, and the state afterwards. */
  function Deltas(a: seq<real>, b: seq<real>, k: nat, s: bv64): (seq<real>, bv64)
    requires |a| == |b| > 0
  {
    if k == 0 then ([], s)
    else
      var (ds, t) := Deltas(a, b, k - 1, s);
      var (idx, t') := Draw(|a|, |a|, t);
      (ds + Replicate(a, b, idx), t')
  }

  /** The percentile interval of the deltas at the given confidence level. */
  function IntervalOf(deltas: seq<real>, confidence: real): (real, real) {
    if deltas == [] then (0.0, 0.0)
    else
      var sorted := Sort(deltas);
      var alpha := 1.0 - confidence;
      (Percentile(sorted, (alpha / 2.0) * 100.0), Percentile(sorted, (1.0 - alpha / 2.0) * 100.0))
  }

  datatype Outcome = Rejected | Interval(low: real, high: real)

  /** One replication: draw as many pairs as there are, with replacement. */
  method Resample(a: seq<real>, b: seq<real>, s: bv64) returns (sumA: real, sumB: real, t: bv64)
    requires |a| == |b| > 0
    ensures var (idx, u) := Draw(|a|, |a|, s);
            sumA == PickSum(a, idx) && sumB == PickSum(b, idx) && t == u
  {
    sumA, sumB, t := 0.0, 0.0, s;
    ghost var drawn: seq<nat> := [];
    for k := 0 to |a|
      invariant Draw(|a|, k, s) == (drawn, t)
      invariant sumA == PickSum(a, drawn) && sumB == PickSum(b, drawn)
    {
      DrawOneMore(|a|, k, s, drawn, t);
      t := NextRand(t);
      var idx := t as nat % |a|;
      IndexInRange(t, |a|);
      PickOneMore(a, drawn, idx);
      PickOneMore(b, drawn, idx);
      sumA := sumA + a[idx];
      sumB := sumB + b[idx];
      drawn := drawn + [idx];
    }
  }

  /** The replication loop. */
  method CollectDeltas(a: seq<real>, b: seq<real>, resamples: nat) returns (deltas: seq<real>)
    requires |a| == |b| > 0
    ensures deltas == Deltas(a, b, resamples, SEED).0
  {
    deltas := [];
    var state := SEED;
    for k := 0 to resamples
      invariant Deltas(a, b, k, SEED) == (deltas, state)
    {
      var sumA, sumB;
      sumA, sumB, state := Resample(a, b, state);
      deltas := deltas + DeltaOf(sumA, sumB, |a|);
    }
  }

  /** The whole interval computation. */
  method PairedInterval(a: seq<real>, b: seq<real>, resamples: nat, confidence: real) returns (r: Outcome)
    ensures r.Rejected? <==> |a| != |b| || |a| < 2
    ensures r.Interval? ==> (r.low, r.high) == IntervalOf(Deltas(a, b, resamples, SEED).0, confidence)
  {
    if |a| != |b| || |a| < 2 {
      return Rejected;
    }
    var deltas := CollectDeltas(a, b, resamples);
    var (low, high) := IntervalOf(deltas, confidence);
    return Interval(low, high);
  }

  /** Every pair (x, y) keeps 100(y - x) on one side of bound * x. */
  ghost predicate PairsAtMost(a: seq<real>, b: seq<real>, bound: real) {
    |a| == |b| && forall i :: 0 <= i < |a| ==> 100.0 * (b[i] - a[i]) <= Scale(bound, a[i])
  }

  ghost predicate PairsAtLeast(a: seq<real>, b: seq<real>, bound: real) {
    |a| == |b| && forall i :: 0 <= i < |a| ==> Scale(bound, a[i]) <= 100.0 * (b[i] - a[i])
  }

  lemma ScaleAdds(f: real, x: real, y: real)
    ensures Scale(f, x + y) == Scale(f, x) + Scale(f, y)
  {
  }

  /** The mediant inequality, for any choice of indices whatever drew them. */
  lemma {:induction false} PickedAtMost(a: seq<real>, b: seq<real>, idx: seq<nat>, bound: real)
    requires PairsAtMost(a, b, bound) && Below(idx, |a|)
    ensures 100.0 * (PickSum(b, idx) - PickSum(a, idx)) <= Scale(bound, PickSum(a, idx))
  {
    if idx != [] {
      var init, last := idx[..|idx| - 1], idx[|idx| - 1];
      PickedAtMost(a, b, init, bound);
      ScaleAdds(bound, PickSum(a, init), a[last]);
    }
  }

  lemma {:induction false} PickedAtLeast(a: seq<real>, b: seq<real>, idx: seq<nat>, bound: real)
    requires PairsAtLeast(a, b, bound) && Below(idx, |a|)
    ensures Scale(bound, PickSum(a, idx)) <= 100.0 * (PickSum(b, idx) - PickSum(a, idx))
  {
    if idx != [] {
      var init, last := idx[..|idx| - 1], idx[|idx| - 1];
      PickedAtLeast(a, b, init, bound);
      ScaleAdds(bound, PickSum(a, init), a[last]);
    }
  }

  /** The delta of the means is the delta of the sums. */
  lemma DeltaOfSums(sumA: real, sumB: real, n: real)
    requires n > 0.0 && sumA / n > 0.0
    ensures sumA > 0.0 && PercentDelta(sumA / n, sumB / n) == PercentDelta(sumA, sumB)
  {
    var x, y := sumA / n, sumB / n;
    assert x * n == sumA && y * n == sumB;
    assert sumA > 0.0;
    var q := (y - x) / x;
    assert q * x == y - x;
    assert q * sumA == sumB - sumA by {
      calc {
        q * sumA;
        q * (x * n);
        (q * x) * n;
        (y - x) * n;
        sumB - sumA;
      }
    }
    assert (sumB - sumA) / sumA == q;
  }

  lemma DeltaBoundary(sumA: real, sumB: real, bound: real)
    requires sumA > 0.0
    ensures 100.0 * (sumB - sumA) <= Scale(bound, sumA) <==> PercentDelta(sumA, sumB) <= bound
    ensures Scale(bound, sumA) <= 100.0 * (sumB - sumA) <==> bound <= PercentDelta(sumA, sumB)
  {
    var d := sumB - sumA;
    QuotientAtMost(d, sumA, bound / 100.0);
    QuotientAtLeast(d, sumA, bound / 100.0);
    assert (bound / 100.0) * sumA == Scale(bound, sumA) / 100.0;
  }

  lemma ReplicateAtMost(a: seq<real>, b: seq<real>, idx: seq<nat>, bound: real)
    requires |a| > 0 && PairsAtMost(a, b, bound) && Below(idx, |a|)
    ensures forall d :: d in Replicate(a, b, idx) ==> d <= bound
  {
    var sumA, sumB, n := PickSum(a, idx), PickSum(b, idx), |a| as real;
    PickedAtMost(a, b, idx, bound);
    if sumA / n > 0.0 {
      DeltaOfSums(sumA, sumB, n);
      DeltaBoundary(sumA, sumB, bound);
    }
  }

  lemma ReplicateAtLeast(a: seq<real>, b: seq<real>, idx: seq<nat>, bound: real)
    requires |a| > 0 && PairsAtLeast(a, b, bound) && Below(idx, |a|)
    ensures forall d :: d in Replicate(a, b, idx) ==> bound <= d
  {
    var sumA, sumB, n := PickSum(a, idx), PickSum(b, idx), |a| as real;
    PickedAtLeast(a, b, idx, bound);
    if sumA / n > 0.0 {
      DeltaOfSums(sumA, sumB, n);
      DeltaBoundary(sumA, sumB, bound);
    }
  }

  lemma {:induction false} DeltasAtMost(a: seq<real>, b: seq<real>, k: nat, s: bv64, bound: real)
    requires |a| > 0 && PairsAtMost(a, b, bound)
    ensures forall d :: d in Deltas(a, b, k, s).0 ==> d <= bound
  {
    if k > 0 {
      DeltasAtMost(a, b, k - 1, s, bound);
      ReplicateAtMost(a, b, Draw(|a|, |a|, Deltas(a, b, k - 1, s).1).0, bound);
    }
  }

  lemma {:induction false} DeltasAtLeast(a: seq<real>, b: seq<real>, k: nat, s: bv64, bound: real)
    requires |a| > 0 && PairsAtLeast(a, b, bound)
    ensures forall d :: d in Deltas(a, b, k, s).0 ==> bound <= d
  {
    if k > 0 {
      DeltasAtLeast(a, b, k - 1, s, bound);
      ReplicateAtLeast(a, b, Draw(|a|, |a|, Deltas(a, b, k - 1, s).1).0, bound);
    }
  }

  lemma IntervalWithin(deltas: seq<real>, confidence: real, lo: real, hi: real)
    requires deltas != [] && 0.0 <= confidence && forall d :: d in deltas ==> lo <= d <= hi
    ensures var (low, high) := IntervalOf(deltas, confidence); lo <= low <= high <= hi
  {
    var s := Sort(deltas);
    SortHasSameElements(deltas);
    assert s[0] in s && s[|s| - 1] in s;
    var alpha := 1.0 - confidence;
    PercentileMonotone(s, (alpha / 2.0) * 100.0, (1.0 - alpha / 2.0) * 100.0);
  }

  /** The interval leaves no more than half of the missing confidence on each side: of n deltas at
      most (1 - confidence) / 2 (n - 1) + 1 lie below its low end and as many above its high
      end, and the ends are the quantiles of these shares. */
  lemma IntervalShares(deltas: seq<real>, confidence: real)
    requires deltas != [] && 0.0 <= confidence <= 1.0
    ensures var (low, high) := IntervalOf(deltas, confidence);
            IntervalOk(deltas, (1.0 - confidence) / 2.0, low, high)
  {
    var share := (1.0 - confidence) / 2.0;
    PercentileIsQuantile(deltas, share * 100.0);
    PercentileIsQuantile(deltas, (1.0 - share) * 100.0);
    var (low, high) := IntervalOf(deltas, confidence);
    SharesOfQuantiles(deltas, share, low, high);
  }

  ghost predicate IntervalOk(deltas: seq<real>, share: real, low: real, high: real) {
    && IsQuantile(deltas, share * 100.0, low) && IsQuantile(deltas, (1.0 - share) * 100.0, high)
    && CountBelow(deltas, low) as real <= Scale(share, (|deltas| - 1) as real) + 1.0
    && CountAbove(deltas, high) as real <= Scale(share, (|deltas| - 1) as real) + 1.0
  }

  lemma {:induction false} SharesOfQuantiles(deltas: seq<real>, share: real, low: real, high: real)
    requires deltas != [] && 0.0 <= share <= 0.5
    requires IsQuantile(deltas, share * 100.0, low) && IsQuantile(deltas, (1.0 - share) * 100.0, high)
    ensures IntervalOk(deltas, share, low, high)
  {
    ShareOfRank(share, |deltas|);
  }

  lemma ShareOfRank(share: real, n: nat)
    requires n >= 1 && 0.0 <= share <= 0.5
    ensures Rank(n, share * 100.0) == Scale(share, (n - 1) as real)
    ensures (n - 1) as real - Rank(n, (1.0 - share) * 100.0) == Scale(share, (n - 1) as real)
  {
    var m := (n - 1) as real;
    assert (share * 100.0) / 100.0 == share && ((1.0 - share) * 100.0) / 100.0 == 1.0 - share;
    assert (1.0 - share) * m == m - share * m;
  }

  lemma {:induction false} PickSumPositive(a: seq<real>, idx: seq<nat>)
    requires (forall x :: x in a ==> x > 0.0) && Below(idx, |a|)
    ensures PickSum(a, idx) >= 0.0 && (idx != [] ==> PickSum(a, idx) > 0.0)
  {
    if idx != [] {
      var init, last := idx[..|idx| - 1], idx[|idx| - 1];
      assert a[last] in a;
      PickSumPositive(a, init);
    }
  }

  lemma {:induction false} DeltasComplete(a: seq<real>, b: seq<real>, k: nat, s: bv64)
    requires |a| == |b| > 0 && forall x :: x in a ==> x > 0.0
    ensures |Deltas(a, b, k, s).0| == k
  {
    if k > 0 {
      DeltasComplete(a, b, k - 1, s);
      var idx := Draw(|a|, |a|, Deltas(a, b, k - 1, s).1).0;
      ReplicateComplete(a, b, idx);
    }
  }

  lemma {:induction false} ReplicateComplete(a: seq<real>, b: seq<real>, idx: seq<nat>)
    requires |a| == |b| == |idx| > 0 && Below(idx, |a|) && forall x :: x in a ==> x > 0.0
    ensures |Replicate(a, b, idx)| == 1
  {
    PickSumPositive(a, idx);
    PositiveMeanCounts(PickSum(a, idx), PickSum(b, idx), |a|);
  }

  lemma PositiveMeanCounts(sumA: real, sumB: real, n: nat)
    requires n > 0 && sumA > 0.0
    ensures |DeltaOf(sumA, sumB, n)| == 1
  {
    QuotientAtMost(sumA, n as real, 0.0);
  }

  /** The generator never reaches the absorbing zero state during any number of replications. */
  lemma {:induction false} StreamNeverZero(a: seq<real>, b: seq<real>, k: nat, s: bv64)
    requires |a| == |b| > 0 && s != 0
    ensures Deltas(a, b, k, s).1 != 0
  {
    if k > 0 {
      StreamNeverZero(a, b, k - 1, s);
      DrawNeverZero(|a|, |a|, Deltas(a, b, k - 1, s).1);
    }
  }

  /** With positive baselines the interval is ordered and lies inside every range that holds
      all per-pair percentage deltas, from whatever generator state. */
  lemma {:induction false} IntervalInsidePairDeltas(a: seq<real>, b: seq<real>, resamples: nat, s: bv64,
                                 confidence: real, lo: real, hi: real)
    requires |a| == |b| > 0 && resamples > 0 && 0.0 <= confidence
    requires forall i :: 0 <= i < |a| ==> a[i] > 0.0 && lo <= PercentDelta(a[i], b[i]) <= hi
    ensures |Deltas(a, b, resamples, s).0| == resamples
    ensures var (low, high) := IntervalOf(Deltas(a, b, resamples, s).0, confidence); lo <= low <= high <= hi
  {
    forall i | 0 <= i < |a|
      ensures 100.0 * (b[i] - a[i]) <= Scale(hi, a[i]) && Scale(lo, a[i]) <= 100.0 * (b[i] - a[i])
    {
      DeltaBoundary(a[i], b[i], hi);
      DeltaBoundary(a[i], b[i], lo);
    }
    DeltasComplete(a, b, resamples, s);
    DeltasAtMost(a, b, resamples, s, hi);
    DeltasAtLeast(a, b, resamples, s, lo);
    IntervalWithin(Deltas(a, b, resamples, s).0, confidence, lo, hi);
  }

  /** If no pair improves, the interval never excludes zero from below, whatever the sign of
      the baselines. */
  lemma {:induction false} NoImprovementNoPositiveLow(a: seq<real>, b: seq<real>, resamples: nat, s: bv64,
                                                      confidence: real)
    requires |a| == |b| > 0 && 0.0 <= confidence
    requires forall i :: 0 <= i < |a| ==> b[i] <= a[i]
    ensures IntervalOf(Deltas(a, b, resamples, s).0, confidence).0 <= 0.0
  {
    assert PairsAtMost(a, b, 0.0);
    DeltasAtMost(a, b, resamples, s, 0.0);
    var ds := Deltas(a, b, resamples, s).0;
    if ds != [] {
      var sorted := Sort(ds);
      IntervalWithin(ds, confidence, LowerBound(ds), 0.0);
    }
  }

  lemma {:induction false} PickSumNotPositive(a: seq<real>, idx: seq<nat>)
    requires (forall x :: x in a ==> x <= 0.0) && Below(idx, |a|)
    ensures PickSum(a, idx) <= 0.0
  {
    if idx != [] {
      var init, last := idx[..|idx| - 1], idx[|idx| - 1];
      assert a[last] in a;
      PickSumNotPositive(a, init);
    }
  }

  lemma {:induction false} NoDeltas(a: seq<real>, b: seq<real>, k: nat, s: bv64)
    requires |a| == |b| > 0 && forall x :: x in a ==> x <= 0.0
    ensures Deltas(a, b, k, s).0 == []
  {
    if k > 0 {
      NoDeltas(a, b, k - 1, s);
      var idx := Draw(|a|, |a|, Deltas(a, b, k - 1, s).1).0;
      PickSumNotPositive(a, idx);
      MeanNotPositive(PickSum(a, idx), PickSum(b, idx), |a|);
    }
  }

  lemma MeanNotPositive(sumA: real, sumB: real, n: nat)
    requires n > 0 && sumA <= 0.0
    ensures DeltaOf(sumA, sumB, n) == []
  {
    QuotientAtMost(sumA, n as real, 0.0);
  }

  /** Without a positive baseline no replicate counts, and the interval is empty at zero: whatever
      the other sample holds, it never counts as an improvement. */
  lemma {:induction false} NoBaselineNoInterval(a: seq<real>, b: seq<real>, resamples: nat, s: bv64, confidence: real)
    requires |a| == |b| > 0 && forall x :: x in a ==> x <= 0.0
    ensures IntervalOf(Deltas(a, b, resamples, s).0, confidence) == (0.0, 0.0)
  {
    NoDeltas(a, b, resamples, s);
  }

  function LowerBound(s: seq<real>): (r: real)
    ensures forall x :: x in s ==> r <= x
  {
    if s == [] then 0.0
    else
      var r := LowerBound(s[1..]);
      assert forall x :: x in s ==> x == s[0] || x in s[1..];
      if s[0] <= r then s[0] else r
  }

  /** The first states of the generator from its seed. */
  lemma FirstStates()
    ensures NextRand(SEED) == 0xdc1b77ae0bf34dad && NextRand(0xdc1b77ae0bf34dad) == 0x64f0eeb9026e6076
  {
  }
}
