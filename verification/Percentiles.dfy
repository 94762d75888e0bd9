/** Linear-interpolation percentiles of an ascending sequence. */
module Percentiles {
  import opened RealArith
  import opened RealSeqs

  function Clamp(x: real, lo: real, hi: real): real {
    if x < lo then lo else if x > hi then hi else x
  }

  /** The value at a fractional index: linear between the two neighbours. */
  function At(s: seq<real>, rank: real): real
    requires |s| >= 1 && 0.0 <= rank <= (|s| - 1) as real
  {
    var low := rank.Floor;
    var high := if low + 1 <= |s| - 1 then low + 1 else |s| - 1;
    var frac := rank - low as real;
    s[low] + Scale(frac, s[high] - s[low])
  }

  function Rank(n: nat, percentile: real): (r: real)
    requires n >= 1
    ensures 0.0 <= r <= (n - 1) as real
  {
    var p := Clamp(percentile, 0.0, 100.0);
    ScaleWithin(p / 100.0, (n - 1) as real);
    Scale(p / 100.0, (n - 1) as real)
  }

  function Percentile(s: seq<real>, percentile: real): real {
    if |s| == 0 then 0.0
    else if |s| == 1 then s[0]
    else At(s, Rank(|s|, percentile))
  }

  /** Between two neighbouring samples the value stays between them. */
  lemma AtNeighbours(s: seq<real>, rank: real)
    requires Sorted(s) && |s| >= 1 && 0.0 <= rank <= (|s| - 1) as real
    ensures s[rank.Floor] <= At(s, rank)
    ensures rank.Floor + 1 < |s| ==> At(s, rank) <= s[rank.Floor + 1]
    ensures rank == rank.Floor as real ==> At(s, rank) == s[rank.Floor]
  {
    var low := rank.Floor;
    var high := if low + 1 <= |s| - 1 then low + 1 else |s| - 1;
    ScaleWithin(rank - low as real, s[high] - s[low]);
  }

  /** Interpolation is monotone in the rank. */
  lemma AtMonotone(s: seq<real>, r1: real, r2: real)
    requires Sorted(s) && |s| >= 1 && 0.0 <= r1 <= r2 <= (|s| - 1) as real
    ensures At(s, r1) <= At(s, r2)
  {
    AtNeighbours(s, r1);
    AtNeighbours(s, r2);
    if r1.Floor == r2.Floor {
      var low := r1.Floor;
      var high := if low + 1 <= |s| - 1 then low + 1 else |s| - 1;
      ScaleMonotone(r1 - low as real, r2 - low as real, s[high] - s[low]);
    } else {
      assert r1.Floor + 1 <= r2.Floor;
    }
  }

  lemma RankMonotone(n: nat, p: real, q: real)
    requires n >= 1 && p <= q
    ensures Rank(n, p) <= Rank(n, q)
  {
    ScaleMonotone(Clamp(p, 0.0, 100.0) / 100.0, Clamp(q, 0.0, 100.0) / 100.0, (n - 1) as real);
  }

  /** Percentiles of ascending data grow with p and stay between the first and last value;
      the 0th and everything below is the first value, the 100th and above the last. */
  lemma PercentileMonotone(s: seq<real>, p: real, q: real)
    requires Sorted(s) && p <= q
    ensures Percentile(s, p) <= Percentile(s, q)
    ensures s != [] ==> s[0] <= Percentile(s, p) && Percentile(s, q) <= s[|s| - 1]
    ensures s != [] && p <= 0.0 ==> Percentile(s, p) == s[0]
    ensures s != [] && q >= 100.0 ==> Percentile(s, q) == s[|s| - 1]
  {
    var n := |s|;
    if n > 1 {
      RankMonotone(n, p, q);
      AtMonotone(s, Rank(n, p), Rank(n, q));
      AtMonotone(s, 0.0, Rank(n, p));
      AtMonotone(s, Rank(n, q), (n - 1) as real);
      AtNeighbours(s, 0.0);
      AtNeighbours(s, (n - 1) as real);
    }
  }

  /** The percentile of a fractional position among `n` samples. */
  function PercentOf(n: nat, x: real): real
    requires n >= 2
  {
    100.0 * x / (n - 1) as real
  }

  lemma PositionComesBack(x: real, m: real, p: real)
    requires m > 0.0 && 0.0 <= x <= m && p == 100.0 * x / m
    ensures 0.0 <= p <= 100.0 && Scale(p / 100.0, m) == x
  {
    assert p * m == 100.0 * x;
    QuotientAtLeast(100.0 * x, m, 0.0);
    QuotientAtMost(100.0 * x, m, 100.0);
    assert (p / 100.0) * m == (p * m) / 100.0;
  }

  lemma RankOfPosition(n: nat, x: real)
    requires n >= 2 && 0.0 <= x <= (n - 1) as real
    ensures Rank(n, PercentOf(n, x)) == x
  {
    PositionComesBack(x, (n - 1) as real, PercentOf(n, x));
  }

  /** At the percentile of a position the value is that sample, and from one sample to the next it
      moves along a straight line. With the clamp at 0 and 100 this fixes every percentile. */
  lemma PercentileAffine(s: seq<real>, k: nat, t: real)
    requires k + 1 < |s| && 0.0 <= t <= 1.0
    ensures Percentile(s, PercentOf(|s|, k as real)) == s[k]
    ensures Percentile(s, PercentOf(|s|, k as real + t)) - s[k] == t * (s[k + 1] - s[k])
    ensures Percentile(s, 100.0) == s[|s| - 1]
    ensures Percentile([], t) == 0.0
  {
    AtPosition(s, k as real);
    AtPosition(s, k as real + t);
    AtSample(s, k);
    AtBetween(s, k, t);
    LastAtHundred(s);
  }

  lemma AtPosition(s: seq<real>, x: real)
    requires |s| >= 2 && 0.0 <= x <= (|s| - 1) as real
    ensures Percentile(s, PercentOf(|s|, x)) == At(s, x)
  {
    RankOfPosition(|s|, x);
  }

  lemma AtBetween(s: seq<real>, k: nat, t: real)
    requires k + 1 < |s| && 0.0 <= t <= 1.0
    ensures At(s, k as real + t) - s[k] == t * (s[k + 1] - s[k])
  {
    if t == 1.0 {
      AtSample(s, k + 1);
    } else {
      assert (k as real + t).Floor == k;
    }
  }

  lemma LastAtHundred(s: seq<real>)
    requires s != []
    ensures Percentile(s, 100.0) == s[|s| - 1]
  {
    AtSample(s, |s| - 1);
  }

  lemma AtSample(s: seq<real>, k: nat)
    requires k < |s|
    ensures At(s, k as real) == s[k]
  {
    assert (k as real).Floor == k;
  }

  // ----- how many samples lie on either side -----

  function CountBelow(s: seq<real>, x: real): nat {
    if s == [] then 0 else CountBelow(s[1..], x) + if s[0] < x then 1 else 0
  }

  function CountAbove(s: seq<real>, x: real): nat {
    if s == [] then 0 else CountAbove(s[1..], x) + if s[0] > x then 1 else 0
  }

  lemma {:induction false} CountInsert(y: real, s: seq<real>, x: real)
    ensures CountBelow(Insert(y, s), x) == CountBelow(s, x) + (if y < x then 1 else 0)
    ensures CountAbove(Insert(y, s), x) == CountAbove(s, x) + if y > x then 1 else 0
  {
    if s == [] || y <= s[0] {
      assert ([y] + s)[1..] == s;
    } else {
      CountInsert(y, s[1..], x);
      assert ([s[0]] + Insert(y, s[1..]))[1..] == Insert(y, s[1..]);
    }
  }

  lemma {:induction false} CountSort(s: seq<real>, x: real)
    ensures CountBelow(Sort(s), x) == CountBelow(s, x) && CountAbove(Sort(s), x) == CountAbove(s, x)
  {
    if s != [] {
      CountSort(s[1..], x);
      CountInsert(s[0], Sort(s[1..]), x);
    }
  }

  /** At most the first `k` are below and at most the rest above. */
  lemma {:induction false} CountSplit(s: seq<real>, k: nat, x: real)
    requires k <= |s|
    ensures (forall i :: k <= i < |s| ==> s[i] >= x) ==> CountBelow(s, x) <= k
    ensures (forall i :: 0 <= i < k ==> s[i] <= x) ==> CountAbove(s, x) <= |s| - k
  {
    if s != [] {
      var t := s[1..];
      assert forall i :: 0 <= i < |t| ==> t[i] == s[i + 1];
      CountSplit(t, if k == 0 then 0 else k - 1, x);
    }
  }

  /** The value is a p-quantile: no more than p percent of the n - 1 gaps, and one sample, lie
      below it, and no more than the other gaps, and one sample, above. */
  ghost predicate IsQuantile(s: seq<real>, percentile: real, x: real) {
    && s != []
    && CountBelow(s, x) as real <= Rank(|s|, percentile) + 1.0
    && CountAbove(s, x) as real <= (|s| - 1) as real - Rank(|s|, percentile) + 1.0
  }

  lemma {:induction false} PercentileIsQuantile(s: seq<real>, percentile: real)
    requires s != []
    ensures IsQuantile(s, percentile, Percentile(Sort(s), percentile))
  {
    var t, n := Sort(s), |s|;
    var x, rank := Percentile(t, percentile), Rank(n, percentile);
    CountSort(s, x);
    if n > 1 {
      AtNeighbours(t, rank);
      var low := rank.Floor;
      CountSplit(t, low + 1, x);
    } else {
      CountSplit(t, 1, x);
    }
  }
}
