/** What the mean and the squared deviations of a sample are, without reference to each other:
    sums over all pairs, and how they follow a change of origin and unit. */
module Dispersion {
  import opened RealArith
  import opened RealSeqs

  /** The squared distances of all of `s` from `x`, and those of all pairs of `a` x `s`. */
  function SquaresFrom(x: real, s: seq<real>): real {
    if s == [] then 0.0 else Square(x - s[0]) + SquaresFrom(x, s[1..])
  }

  function PairSquares(a: seq<real>, s: seq<real>): real {
    if a == [] then 0.0 else SquaresFrom(a[0], s) + PairSquares(a[1..], s)
  }

  function SumOfSquares(s: seq<real>): real {
    if s == [] then 0.0 else Square(s[0]) + SumOfSquares(s[1..])
  }

  /** n squares of x, less twice x times a sum, plus squares. */
  function Expanded(n: real, x: real, sum: real, squares: real): real {
    n * Square(x) - 2.0 * (x * sum) + squares
  }

  lemma {:induction false} SquaresFromExpands(x: real, s: seq<real>, n: real)
    requires n == |s| as real
    ensures SquaresFrom(x, s) == Expanded(n, x, Sum(s), SumOfSquares(s))
  {
    if s == [] {
      assert Expanded(0.0, x, 0.0, 0.0) == 0.0;
    } else {
      SquaresFromExpands(x, s[1..], n - 1.0);
      ExpandOne(x, s[0], n, Sum(s[1..]), SumOfSquares(s[1..]));
    }
  }

  lemma ExpandOne(x: real, y: real, n: real, sum: real, squares: real)
    ensures Square(x - y) + Expanded(n - 1.0, x, sum, squares) == Expanded(n, x, y + sum, Square(y) + squares)
  {
    var xx := x * x;
    assert (x - y) * (x - y) == xx - 2.0 * (x * y) + y * y;
    assert (n - 1.0) * xx == n * xx - xx;
    assert x * (y + sum) == x * y + x * sum;
  }

  function PairExpanded(m: real, n: real, sumA: real, squaresA: real, sum: real, squares: real): real {
    m * squaresA - 2.0 * (sumA * sum) + n * squares
  }

  lemma {:induction false} PairSquaresExpands(a: seq<real>, s: seq<real>, m: real, n: real)
    requires m == |s| as real && n == |a| as real
    ensures PairSquares(a, s) == PairExpanded(m, n, Sum(a), SumOfSquares(a), Sum(s), SumOfSquares(s))
  {
    if a == [] {
      assert PairExpanded(m, 0.0, 0.0, 0.0, Sum(s), SumOfSquares(s)) == 0.0;
    } else {
      PairSquaresExpands(a[1..], s, m, n - 1.0);
      SquaresFromExpands(a[0], s, m);
      AddOne(a[0], m, n, Sum(a[1..]), SumOfSquares(a[1..]), Sum(s), SumOfSquares(s));
    }
  }

  lemma AddOne(x: real, m: real, n: real, sumA: real, squaresA: real, sum: real, squares: real)
    ensures Expanded(m, x, sum, squares) + PairExpanded(m, n - 1.0, sumA, squaresA, sum, squares)
            == PairExpanded(m, n, x + sumA, Square(x) + squaresA, sum, squares)
  {
    assert m * (Square(x) + squaresA) == m * Square(x) + m * squaresA;
    assert (x + sumA) * sum == x * sum + sumA * sum;
    assert (n - 1.0) * squares == n * squares - squares;
  }

  lemma {:induction false} DeviationsAreDistances(s: seq<real>, mean: real)
    ensures SquaredDeviations(s, mean) == SquaresFrom(mean, s)
  {
    if s != [] {
      DeviationsAreDistances(s[1..], mean);
      SquareOfOpposite(s[0] - mean, mean - s[0]);
    }
  }

  lemma SquareOfOpposite(x: real, y: real)
    requires x == -y
    ensures Square(x) == Square(y)
  {
  }

  /** Twice n times the squared deviations from the mean are the squared differences of all
      pairs. */
  lemma {:induction false} DeviationsArePairs(s: seq<real>, n: real)
    requires s != [] && n == |s| as real
    ensures Twice(n, SquaredDeviations(s, Mean(s))) == PairSquares(s, s)
  {
    DeviationsExpand(s, n);
    PairSquaresExpands(s, s, n, n);
    MeanTimesSize(s, n);
    PairAlgebra(n, Mean(s), Sum(s), SumOfSquares(s), SquaredDeviations(s, Mean(s)), PairSquares(s, s));
  }

  lemma {:induction false} DeviationsExpand(s: seq<real>, n: real)
    requires s != [] && n == |s| as real
    ensures SquaredDeviations(s, Mean(s)) == Expanded(n, Mean(s), Sum(s), SumOfSquares(s))
  {
    DeviationsAreDistances(s, Mean(s));
    SquaresFromExpands(Mean(s), s, n);
  }

  function Twice(n: real, x: real): real {
    2.0 * (n * x)
  }

  lemma {:induction false} MeanTimesSize(s: seq<real>, n: real)
    requires s != [] && n == |s| as real
    ensures Scale(n, Mean(s)) == Sum(s)
  {
    QuotientTimes(Sum(s), n, Mean(s));
  }

  lemma PairAlgebra(n: real, mean: real, sum: real, squares: real, deviations: real, pairs: real)
    requires Scale(n, mean) == sum && deviations == Expanded(n, mean, sum, squares)
    requires pairs == PairExpanded(n, n, sum, squares, sum, squares)
    ensures Twice(n, deviations) == pairs
  {
    assert n * (n * Square(mean)) == (n * mean) * (n * mean);
    assert n * (mean * sum) == (n * mean) * sum;
    assert n * (n * Square(mean) - 2.0 * (mean * sum) + squares)
           == n * (n * Square(mean)) - 2.0 * (n * (mean * sum)) + n * squares;
  }

  // ----- change of origin and unit -----

  function Shifted(s: seq<real>, c: real): (r: seq<real>)
    ensures |r| == |s| && forall i :: 0 <= i < |s| ==> r[i] == s[i] + c
  {
    if s == [] then [] else [s[0] + c] + Shifted(s[1..], c)
  }

  function Scaled(s: seq<real>, c: real): (r: seq<real>)
    ensures |r| == |s| && forall i :: 0 <= i < |s| ==> r[i] == Scale(c, s[i])
  {
    if s == [] then [] else [Scale(c, s[0])] + Scaled(s[1..], c)
  }

  lemma {:induction false} ShiftedSum(s: seq<real>, c: real, n: real)
    requires n == |s| as real
    ensures Sum(Shifted(s, c)) == Sum(s) + Scale(n, c)
  {
    if s == [] {
      assert Scale(0.0, c) == 0.0;
    } else {
      ShiftedSum(s[1..], c, n - 1.0);
      assert Shifted(s, c)[1..] == Shifted(s[1..], c);
      assert Scale(n, c) == Scale(n - 1.0, c) + c;
    }
  }

  lemma {:induction false} ShiftedDeviations(s: seq<real>, c: real, m: real)
    ensures SquaredDeviations(Shifted(s, c), m + c) == SquaredDeviations(s, m)
  {
    if s != [] {
      ShiftedDeviations(s[1..], c, m);
      assert Shifted(s, c)[1..] == Shifted(s[1..], c);
      assert s[0] + c - (m + c) == s[0] - m;
    }
  }

  lemma {:induction false} ScaledSum(s: seq<real>, c: real)
    ensures Sum(Scaled(s, c)) == Scale(c, Sum(s))
  {
    if s == [] {
      assert Scale(c, 0.0) == 0.0;
    } else {
      ScaledSum(s[1..], c);
      assert Scaled(s, c)[1..] == Scaled(s[1..], c);
      assert Scale(c, s[0]) + Scale(c, Sum(s[1..])) == Scale(c, s[0] + Sum(s[1..]));
    }
  }

  lemma {:induction false} ScaledDeviations(s: seq<real>, c: real, m: real, cm: real)
    requires cm == Scale(c, m)
    ensures SquaredDeviations(Scaled(s, c), cm) == Scale(Square(c), SquaredDeviations(s, m))
  {
    if s == [] {
      assert Scale(Square(c), 0.0) == 0.0;
    } else {
      ScaledDeviations(s[1..], c, m, cm);
      assert Scaled(s, c)[1..] == Scaled(s[1..], c);
      ScaleOne(c, s[0], m, Scaled(s, c)[0], cm, SquaredDeviations(s[1..], m));
    }
  }

  lemma ScaleOne(c: real, x: real, m: real, cx: real, cm: real, rest: real)
    requires cx == Scale(c, x) && cm == Scale(c, m)
    ensures Square(cx - cm) + Scale(Square(c), rest) == Scale(Square(c), Square(x - m) + rest)
  {
    var y := x - m;
    assert cx - cm == c * y;
    assert (c * y) * (c * y) == (c * c) * (y * y);
    assert (c * c) * (y * y + rest) == (c * c) * (y * y) + (c * c) * rest;
  }

  lemma {:induction false} ShiftedMean(s: seq<real>, c: real, n: real)
    requires s != [] && n == |s| as real
    ensures Mean(Shifted(s, c)) == Mean(s) + c
    ensures SquaredDeviations(Shifted(s, c), Mean(Shifted(s, c))) == SquaredDeviations(s, Mean(s))
  {
    ShiftedSum(s, c, n);
    QuotientOfShift(Sum(s), n, c);
    ShiftedDeviations(s, c, Mean(s));
  }

  lemma QuotientOfShift(sum: real, n: real, c: real)
    requires n > 0.0
    ensures (sum + Scale(n, c)) / n == sum / n + c
  {
  }

  lemma {:induction false} ScaledMean(s: seq<real>, c: real, n: real)
    requires s != [] && n == |s| as real
    ensures Mean(Scaled(s, c)) == Scale(c, Mean(s))
    ensures SquaredDeviations(Scaled(s, c), Mean(Scaled(s, c))) == Scale(Square(c), SquaredDeviations(s, Mean(s)))
  {
    ScaledSum(s, c);
    QuotientOfScale(Sum(s), n, c);
    ScaledDeviations(s, c, Mean(s), Scale(c, Mean(s)));
  }

  lemma QuotientOfScale(sum: real, n: real, c: real)
    requires n > 0.0
    ensures Scale(c, sum) / n == Scale(c, sum / n)
  {
    var q := sum / n;
    assert q * n == sum;
    assert (c * q) * n == c * (q * n);
  }

  /** The sample variance, by the squared differences of all pairs. */
  ghost predicate IsVariance(v: real, s: seq<real>) {
    if |s| <= 1 then v == 0.0 else Twice(|s| as real, Scale(v, |s| as real - 1.0)) == PairSquares(s, s)
  }

  lemma {:induction false} VarianceIsPairs(s: seq<real>, n: real, v: real)
    requires |s| > 1 && n == |s| as real && v == SquaredDeviations(s, Mean(s)) / (n - 1.0)
    ensures IsVariance(v, s)
  {
    DeviationsArePairs(s, n);
    QuotientScaled(SquaredDeviations(s, Mean(s)), n - 1.0, v);
  }

  lemma QuotientScaled(x: real, d: real, q: real)
    requires d != 0.0 && q == x / d
    ensures Scale(q, d) == x
  {
  }
}
