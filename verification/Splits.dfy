/** The permutation distribution of the pair count: all ways to deal pooled values into two
    samples of given sizes, and the first two moments of the count over them. */
module Splits {
  import opened RealSeqs
  import opened PairCounting
  import opened TieRuns

  /** n choose k, zero outside 0..n. */
  function Choose(n: nat, k: int): nat {
    if k < 0 then 0
    else if n == 0 then if k == 0 then 1 else 0
    else Choose(n - 1, k - 1) + Choose(n - 1, k)
  }

  function Sq(x: int): int {
    x * x
  }

  /** Twice the deviation of the pair count from its middle. */
  function Deviation(chosen: seq<real>, rest: seq<real>): int {
    PairScore(chosen, rest) - |chosen| * |rest|
  }

  /** The squared deviations, summed over all ways to deal `q` so that `k` more are chosen. */
  function SquaresOver(q: seq<real>, k: int, chosen: seq<real>, rest: seq<real>): int {
    if q == [] then if k == 0 then Sq(Deviation(chosen, rest)) else 0
    else SquaresOver(q[1..], k - 1, chosen + [q[0]], rest) + SquaresOver(q[1..], k, chosen, rest + [q[0]])
  }

  /** The deviations themselves, summed over the same deals. */
  function DeviationsOver(q: seq<real>, k: int, chosen: seq<real>, rest: seq<real>): int {
    if q == [] then if k == 0 then Deviation(chosen, rest) else 0
    else DeviationsOver(q[1..], k - 1, chosen + [q[0]], rest) + DeviationsOver(q[1..], k, chosen, rest + [q[0]])
  }

  // ----- deviations are sums over the chosen values -----

  /** Twice the centred mid-rank of a value among `whole`. */
  function Centred(whole: seq<real>, x: real): int {
    Wins(whole, x) - |whole|
  }

  function CentredSum(whole: seq<real>, s: seq<real>): int {
    if s == [] then 0 else Centred(whole, s[0]) + CentredSum(whole, s[1..])
  }

  lemma {:induction false} CentredSumIsScore(whole: seq<real>, s: seq<real>)
    ensures CentredSum(whole, s) == PairScore(whole, s) - |whole| * |s|
  {
    if s != [] {
      CentredSumIsScore(whole, s[1..]);
      TimesOneMore(|whole|, |s[1..]|);
    }
  }

  lemma {:induction false} CentredOneMore(whole: seq<real>, s: seq<real>, x: real)
    ensures CentredSum(whole, s + [x]) == CentredSum(whole, s) + Centred(whole, x)
  {
    CentredSumIsScore(whole, s + [x]);
    CentredSumIsScore(whole, s);
    PairScoreOneMore(whole, s, x);
    TimesOneMore(|whole|, |s|);
  }

  /** Whatever is chosen, the deviation is the centred ranks of the chosen, with the sign turned. */
  lemma {:induction false} DeviationIsCentredSum(whole: seq<real>, chosen: seq<real>, rest: seq<real>)
    requires multiset(whole) == multiset(chosen + rest)
    ensures Deviation(chosen, rest) == -CentredSum(whole, chosen)
  {
    CentredSumIsScore(whole, chosen);
    PairScorePermutation(whole, chosen, chosen + rest, chosen);
    PairScoreAppendLeft(chosen, rest, chosen);
    PairScoreConserved(chosen, chosen);
    PairScoreConserved(chosen, rest);
    assert |whole| == |chosen| + |rest| by {
      assert |multiset(whole)| == |multiset(chosen + rest)|;
    }
    DeviationAlgebra(|chosen|, |rest|, PairScore(chosen, chosen), PairScore(chosen, rest), PairScore(rest, chosen));
  }

  lemma DeviationAlgebra(c: nat, r: nat, cc: int, cr: int, rc: int)
    requires cc + cc == 2 * c * c && cr + rc == 2 * c * r
    ensures cr - c * r == (c + r) * c - (cc + rc)
  {
    assert 2 * c * c == 2 * (c * c) && 2 * c * r == 2 * (c * r);
    assert (c + r) * c == c * c + c * r;
  }

  // ----- moments over integers -----

  function Map(whole: seq<real>, q: seq<real>): seq<int> {
    if q == [] then [] else [Centred(whole, q[0])] + Map(whole, q[1..])
  }

  function SumOf(d: seq<int>): int {
    if d == [] then 0 else d[0] + SumOf(d[1..])
  }

  function SquaresOf(d: seq<int>): int {
    if d == [] then 0 else Sq(d[0]) + SquaresOf(d[1..])
  }

  /** The squares of `acc` plus the chosen, over all choices of `k`. */
  function ChosenSquares(d: seq<int>, k: int, acc: int): int {
    if d == [] then if k == 0 then Sq(acc) else 0
    else ChosenSquares(d[1..], k - 1, acc + d[0]) + ChosenSquares(d[1..], k, acc)
  }

  function ChosenSums(d: seq<int>, k: int, acc: int): int {
    if d == [] then if k == 0 then acc else 0
    else ChosenSums(d[1..], k - 1, acc + d[0]) + ChosenSums(d[1..], k, acc)
  }

  lemma {:induction false} DealsAreChoices(whole: seq<real>, q: seq<real>, k: int, chosen: seq<real>, rest: seq<real>)
    requires multiset(whole) == multiset(chosen + rest + q)
    ensures SquaresOver(q, k, chosen, rest) == ChosenSquares(Map(whole, q), k, CentredSum(whole, chosen))
    ensures DeviationsOver(q, k, chosen, rest) == -ChosenSums(Map(whole, q), k, CentredSum(whole, chosen))
  {
    if q == [] {
      assert chosen + rest + q == chosen + rest;
      DeviationIsCentredSum(whole, chosen, rest);
      SquareOfNegative(CentredSum(whole, chosen));
    } else {
      var x, tail := q[0], q[1..];
      assert q == [x] + tail;
      assert Map(whole, q)[1..] == Map(whole, tail);
      CentredOneMore(whole, chosen, x);
      DealsAreChoices(whole, tail, k - 1, chosen + [x], rest) by {
        assert multiset(chosen + [x] + rest + tail) == multiset(chosen + rest + ([x] + tail));
      }
      DealsAreChoices(whole, tail, k, chosen, rest + [x]) by {
        assert chosen + (rest + [x]) + tail == chosen + rest + ([x] + tail);
      }
    }
  }

  lemma SquareOfNegative(x: int)
    ensures Sq(-x) == Sq(x)
  {
  }

  /** Choices that contain one given element, and two given elements. */
  function ChooseOne(n: nat, k: int): nat {
    if n == 0 then 0 else Choose(n - 1, k - 1)
  }

  function ChooseTwo(n: nat, k: int): nat {
    if n < 2 then 0 else Choose(n - 2, k - 2)
  }

  /** The second moment in closed form. */
  function SecondMoment(n: nat, k: int, acc: int, sum: int, squares: int): int {
    Choose(n, k) * (acc * acc) + 2 * acc * (ChooseOne(n, k) * sum) + ChooseOne(n, k) * squares
    + ChooseTwo(n, k) * (sum * sum - squares)
  }

  lemma {:induction false} ChosenSquaresClosed(d: seq<int>, k: int, acc: int)
    ensures ChosenSquares(d, k, acc) == SecondMoment(|d|, k, acc, SumOf(d), SquaresOf(d))
    ensures ChosenSums(d, k, acc) == Choose(|d|, k) * acc + ChooseOne(|d|, k) * SumOf(d)
  {
    if d != [] {
      var t := d[1..];
      ChosenSquaresClosed(t, k - 1, acc + d[0]);
      ChosenSquaresClosed(t, k, acc);
      MomentStep(|t|, k, acc, d[0], SumOf(t), SquaresOf(t)) by {
        if |t| == 1 {
          assert t[1..] == [];
        }
      }
      SumStep(|t|, k, acc, d[0], SumOf(t));
    }
  }

  lemma PascalOne(m: nat, k: int)
    requires m >= 1
    ensures ChooseOne(m, k - 1) + ChooseOne(m, k) == ChooseOne(m + 1, k) == Choose(m, k - 1)
    ensures ChooseOne(m, k - 1) == ChooseTwo(m + 1, k)
  {
  }

  lemma PascalTwo(m: nat, k: int)
    requires m >= 2
    ensures ChooseTwo(m, k - 1) + ChooseTwo(m, k) == ChooseTwo(m + 1, k)
  {
  }

  lemma Pascal(m: nat, k: int)
    ensures Choose(m, k - 1) + Choose(m, k) == Choose(m + 1, k)
  {
  }

  lemma SumStep(m: nat, k: int, acc: int, h: int, s: int)
    requires m == 0 ==> s == 0
    ensures Choose(m, k - 1) * (acc + h) + ChooseOne(m, k - 1) * s + (Choose(m, k) * acc + ChooseOne(m, k) * s)
            == Choose(m + 1, k) * acc + ChooseOne(m + 1, k) * (h + s)
  {
    Pascal(m, k);
    if m == 0 {
      SumAlgebra0(Choose(m, k - 1), Choose(m, k), acc, h);
    } else {
      PascalOne(m, k);
      SumAlgebra1(ChooseOne(m, k - 1), ChooseOne(m, k), Choose(m, k), acc, h, s);
    }
  }

  lemma SumAlgebra0(c0: int, c1: int, acc: int, h: int)
    ensures c0 * (acc + h) + 0 + (c1 * acc + 0) == (c0 + c1) * acc + c0 * (h + 0)
  {
  }

  lemma SumAlgebra1(a0: int, a1: int, c1: int, acc: int, h: int, s: int)
    ensures (a0 + a1) * (acc + h) + a0 * s + (c1 * acc + a1 * s) == (a0 + a1 + c1) * acc + (a0 + a1) * (h + s)
  {
  }

  lemma MomentStep(m: nat, k: int, acc: int, h: int, s: int, q: int)
    requires m == 0 ==> s == 0 && q == 0
    requires m == 1 ==> q == s * s
    ensures SecondMoment(m, k - 1, acc + h, s, q) + SecondMoment(m, k, acc, s, q)
            == SecondMoment(m + 1, k, acc, h + s, Sq(h) + q)
  {
    Pascal(m, k);
    if m == 0 {
      MomentAlgebra0(Choose(m, k - 1), Choose(m, k), acc, h);
    } else {
      PascalOne(m, k);
      if m == 1 {
        MomentAlgebra1(ChooseOne(m, k - 1), ChooseOne(m, k), Choose(m, k), acc, h, s);
      } else {
        PascalTwo(m, k);
        MomentAlgebra2(ChooseTwo(m, k - 1), ChooseTwo(m, k), ChooseOne(m, k), Choose(m, k), acc, h, s, q);
      }
    }
  }

  lemma MomentAlgebra0(c0: int, c1: int, acc: int, h: int)
    ensures c0 * ((acc + h) * (acc + h)) + c1 * (acc * acc)
            == (c0 + c1) * (acc * acc) + 2 * acc * (c0 * h) + c0 * (h * h)
  {
  }

  lemma MomentAlgebra1(a0: int, a1: int, c1: int, acc: int, h: int, s: int)
    ensures var c0 := a0 + a1;
            (c0 * ((acc + h) * (acc + h)) + 2 * (acc + h) * (a0 * s) + a0 * (s * s))
            + (c1 * (acc * acc) + 2 * acc * (a1 * s) + a1 * (s * s))
            == (c0 + c1) * (acc * acc) + 2 * acc * (c0 * (h + s)) + c0 * (h * h + s * s)
               + a0 * ((h + s) * (h + s) - (h * h + s * s))
  {
  }

  lemma MomentAlgebra2(b0: int, b1: int, a1: int, c1: int, acc: int, h: int, s: int, q: int)
    ensures var a0 := b0 + b1;
            var c0 := a0 + a1;
            (c0 * ((acc + h) * (acc + h)) + 2 * (acc + h) * (a0 * s) + a0 * q + b0 * (s * s - q))
            + (c1 * (acc * acc) + 2 * acc * (a1 * s) + a1 * q + b1 * (s * s - q))
            == (c0 + c1) * (acc * acc) + 2 * acc * (c0 * (h + s)) + c0 * (h * h + q)
               + a0 * ((h + s) * (h + s) - (h * h + q))
  {
  }

  // ----- counting choices -----

  /** k (n choose k) = n (n-1 choose k-1), and the same for the elements left out. */
  lemma {:induction false} Absorption(n: nat, k: int)
    requires n >= 1
    ensures k * Choose(n, k) == n * Choose(n - 1, k - 1)
    ensures (n - k) * Choose(n, k) == n * Choose(n - 1, k)
  {
    if n >= 2 {
      Absorption(n - 1, k - 1);
      Absorption(n - 1, k);
      Pascal(n - 1, k);
      Pascal(n - 2, k - 1);
      Pascal(n - 2, k);
      AbsorptionAlgebra(n, k, Choose(n - 2, k - 2), Choose(n - 2, k - 1), Choose(n - 2, k),
                        Choose(n - 1, k - 1), Choose(n - 1, k));
    } else {
      assert k != 0 && k != 1 ==> Choose(1, k) == 0 && Choose(0, k - 1) == 0 && Choose(0, k) == 0;
    }
  }

  lemma AbsorptionAlgebra(n: int, k: int, x: int, y: int, z: int, u: int, v: int)
    requires u == x + y && v == y + z
    requires (k - 1) * u == (n - 1) * x && k * v == (n - 1) * y
    requires (n - 1 - (k - 1)) * u == (n - 1) * y && (n - 1 - k) * v == (n - 1) * z
    ensures k * (u + v) == n * u && (n - k) * (u + v) == n * v
  {
    assert k * (u + v) == (k - 1) * u + u + k * v;
    assert (n - 1) * x + (n - 1) * y == (n - 1) * (x + y);
    assert (n - k) * (u + v) == (n - 1 - (k - 1)) * u + (n - 1 - k) * v + v;
    assert (n - 1) * y + (n - 1) * z == (n - 1) * (y + z);
  }

  /** Choices that contain one given element and not another. */
  lemma SeparatingChoices(n: nat, k: int)
    requires n >= 2
    ensures Choose(n - 2, k - 1) * (n * (n - 1)) == Choose(n, k) * (k * (n - k))
    ensures ChooseOne(n, k) - ChooseTwo(n, k) == Choose(n - 2, k - 1)
  {
    Absorption(n, k);
    Absorption(n - 1, k - 1);
    Pascal(n - 2, k - 1);
    SeparatingAlgebra(n, k, Choose(n, k), Choose(n - 1, k - 1), Choose(n - 2, k - 1));
  }

  lemma SeparatingSizes(n1: nat, n2: nat, n: nat)
    requires n == n1 + n2 >= 2
    ensures Choose(n - 2, n1 - 1) * (n * (n - 1)) == Choose(n, n1) * (n1 * n2)
  {
    SeparatingChoices(n, n1);
    assert n - n1 == n2;
  }

  lemma SeparatingAlgebra(n: int, k: int, c: int, d: int, e: int)
    requires k * c == n * d && (n - k) * d == (n - 1) * e
    ensures e * (n * (n - 1)) == c * (k * (n - k))
  {
    assert e * (n * (n - 1)) == n * ((n - 1) * e);
    assert n * ((n - k) * d) == (n - k) * (n * d);
    assert (n - k) * (k * c) == c * (k * (n - k));
  }

  // ----- the squared centred ranks -----

  lemma {:induction false} MapOneMore(whole: seq<real>, s: seq<real>, x: real)
    ensures SumOf(Map(whole, s + [x])) == SumOf(Map(whole, s)) + Centred(whole, x)
    ensures SquaresOf(Map(whole, s + [x])) == SquaresOf(Map(whole, s)) + Sq(Centred(whole, x))
  {
    if s == [] {
      assert s + [x] == [x] && [x][1..] == [];
      assert Map(whole, [x]) == [Centred(whole, x)] + Map(whole, []);
    } else {
      MapOneMore(whole, s[1..], x);
      assert (s + [x])[1..] == s[1..] + [x];
      assert Map(whole, s + [x])[1..] == Map(whole, s[1..] + [x]);
    }
  }

  lemma {:induction false} MapLength(whole: seq<real>, s: seq<real>)
    ensures |Map(whole, s)| == |s| && SumOf(Map(whole, s)) == CentredSum(whole, s)
  {
    if s != [] {
      MapLength(whole, s[1..]);
      assert Map(whole, s)[1..] == Map(whole, s[1..]);
    }
  }

  /** The centred ranks of everybody cancel. */
  lemma {:induction false} CentredSumsToZero(q: seq<real>)
    ensures SumOf(Map(q, q)) == 0
  {
    MapLength(q, q);
    CentredSumIsScore(q, q);
    PairScoreConserved(q, q);
    assert 2 * |q| * |q| == 2 * (|q| * |q|);
  }

  function PrefixSquares(q: seq<real>, j: nat): int
    requires j <= |q|
  {
    if j == 0 then 0 else PrefixSquares(q, j - 1) + Sq(Centred(q, q[j - 1]))
  }

  lemma {:induction false} PrefixSquaresAre(q: seq<real>, j: nat)
    requires j <= |q|
    ensures PrefixSquares(q, j) == SquaresOf(Map(q, q[..j]))
  {
    if j > 0 {
      PrefixSquaresAre(q, j - 1);
      assert q[..j] == q[..j - 1] + [q[j - 1]];
      MapOneMore(q, q[..j - 1], q[j - 1]);
    }
  }

  lemma {:induction false} PrefixSquaresSteps(q: seq<real>, i: nat, j: nat, w: int)
    requires i <= j <= |q| && forall p :: i <= p < j ==> Centred(q, q[p]) == w
    ensures PrefixSquares(q, j) == PrefixSquares(q, i) + (j - i) * Sq(w)
  {
    if i < j {
      PrefixSquaresSteps(q, i, j - 1, w);
      OneMore(j - i, Sq(w));
    }
  }

  /** Positions i to j hold one value, and nobody else holds it. */
  ghost predicate IsBlock(q: seq<real>, i: nat, j: nat) {
    && i < j <= |q|
    && (forall p :: 0 <= p < i ==> q[p] < q[i])
    && (forall p :: i <= p < j ==> q[p] == q[i])
    && forall p :: j <= p < |q| ==> q[p] > q[i]
  }

  lemma {:induction false} BlockStart(q: seq<real>, j: nat) returns (i: nat)
    requires Sorted(q) && 0 < j <= |q| && (j < |q| ==> q[j - 1] < q[j])
    ensures IsBlock(q, i, j) && (i > 0 ==> q[i - 1] < q[i])
  {
    i := j - 1;
    while i > 0 && q[i - 1] == q[j - 1]
      invariant 0 <= i < j
      invariant forall p :: i <= p < j ==> q[p] == q[j - 1]
    {
      i := i - 1;
    }
    assert i > 0 ==> q[i - 1] < q[i];
  }

  /** What untied ranks 1..n would give over the first j of them. */
  function Untied(n: int, j: int): int {
    j * (4 * (j * j) - 1) - 6 * n * (j * j) + 3 * (n * n) * j
  }

  lemma UntiedBlock(n: int, i: int, j: int)
    ensures Untied(n, j) - Untied(n, i) == 3 * ((j - i) * Sq(i + j - n)) + (j - i) * ((j - i) * (j - i) - 1)
  {
    var t := j - i;
    UntiedExpands(n, i);
    UntiedExpands(n, j);
    SquareOfSum(i, t);
    CubeOfSum3(i, t);
    SpreadSquare(n, i, t);
    NTimes(n, i, t);
    assert t * (t * t - 1) == t * (t * t) - t;
  }

  lemma UntiedExpands(n: int, j: int)
    ensures Untied(n, j) == 4 * (j * (j * j)) - j - 6 * (n * (j * j)) + 3 * ((n * n) * j)
  {
  }

  lemma NTimes(n: int, i: int, t: int)
    ensures n * ((i + t) * (i + t)) == n * (i * i) + 2 * (n * (i * t)) + n * (t * t)
    ensures (n * n) * (i + t) == (n * n) * i + t * (n * n)
  {
    SquareOfSum(i, t);
  }

  lemma SquareOfSum(i: int, t: int)
    ensures (i + t) * (i + t) == i * i + 2 * (i * t) + t * t
  {
  }

  lemma CubeOfSum3(i: int, t: int)
    ensures (i + t) * ((i + t) * (i + t)) == i * (i * i) + 3 * (i * (i * t)) + 3 * (i * (t * t)) + t * (t * t)
  {
  }

  lemma SpreadSquare(n: int, i: int, t: int)
    ensures t * Sq(i + (i + t) - n) == 4 * (i * (i * t)) + 4 * (i * (t * t)) + t * (t * t) + t * (n * n)
                                       - 4 * (n * (i * t)) - 2 * (n * (t * t))
  {
  }

  /** Ties take t^3 - t from three times the squared centred ranks. */
  lemma {:induction false} RankSquares(q: seq<real>, j: nat)
    requires Sorted(q) && j <= |q| && (0 < j < |q| ==> q[j - 1] < q[j])
    ensures 3 * PrefixSquares(q, j) == Untied(|q|, j) - TieMass(q, j)
  {
    if j > 0 {
      var i := BlockStart(q, j);
      RankSquares(q, i);
      WinsOfRun(q, i, j, q[i]);
      TiesOfBlock(q, i, j, q[i]);
      PrefixSquaresSteps(q, i, j, i + j - |q|);
      TieMassOfBlock(q, i, j, j - i);
      UntiedBlock(|q|, i, j);
    }
  }

  lemma UntiedWhole(n: int)
    ensures Untied(n, n) == n * n * n - n
  {
  }

  // ----- the two moments -----

  lemma {:induction false} DealsInRanks(q: seq<real>, k: nat)
    requires |q| >= 2
    ensures DeviationsOver(q, k, [], []) == 0
    ensures SquaresOver(q, k, [], []) == Choose(|q| - 2, k - 1) * SquaresOf(Map(q, q))
  {
    var n, d := |q|, Map(q, q);
    assert [] + [] + q == q;
    DealsAreChoices(q, q, k, [], []);
    MapLength(q, q);
    CentredSumsToZero(q);
    ChosenSquaresClosed(d, k, 0);
    SeparatingChoices(n, k);
    CollectMoment(Choose(n, k), ChooseOne(n, k), ChooseTwo(n, k), SquaresOf(d));
  }

  lemma CollectMoment(all: int, one: int, two: int, squares: int)
    ensures all * (0 * 0) + 2 * 0 * (one * 0) + one * squares + two * (0 * 0 - squares) == (one - two) * squares
    ensures all * 0 + one * 0 == 0
  {
  }

  lemma {:induction false} AllRankSquares(q: seq<real>)
    requires Sorted(q)
    ensures var n := |q|; 3 * SquaresOf(Map(q, q)) == n * n * n - n - TieMass(q, n)
  {
    PrefixSquaresAre(q, |q|);
    assert q[..|q|] == q;
    RankSquares(q, |q|);
    UntiedWhole(|q|);
  }

  /** Over all deals of sorted values with `k` chosen: the deviations cancel, and the squared ones
      add up to a third of (n^3 - n - ties) for each choice that separates two given values. */
  lemma {:induction false} MomentsOverDeals(q: seq<real>, k: nat, n: nat)
    requires Sorted(q) && |q| == n >= 2
    ensures DeviationsOver(q, k, [], []) == 0
    ensures 3 * SquaresOver(q, k, [], []) == Choose(n - 2, k - 1) * (n * n * n - n - TieMass(q, n))
  {
    DealsInRanks(q, k);
    AllRankSquares(q);
    TripleProduct(Choose(n - 2, k - 1), SquaresOf(Map(q, q)));
  }

  /** The two counts that fix the variance: how many of all deals separate two given values, and
      what the squared deviations add up to. */
  ghost predicate DealCounts(n1: int, n2: int, n: int, mass: int, all: int, separating: int, squares: int) {
    separating * (n * (n - 1)) == all * (n1 * n2) && 3 * squares == separating * (n * n * n - n - mass)
  }

  lemma {:induction false} CountsOfDeals(q: seq<real>, n1: nat, n2: nat, n: nat)
    requires Sorted(q) && |q| == n == n1 + n2 >= 2
    ensures DealCounts(n1, n2, n, TieMass(q, n), Choose(n, n1), Choose(n - 2, n1 - 1), SquaresOver(q, n1, [], []))
    ensures DeviationsOver(q, n1, [], []) == 0
  {
    MomentsOverDeals(q, n1, n);
    SeparatingSizes(n1, n2, n);
  }

  lemma TripleProduct(e: int, squares: int)
    ensures 3 * (e * squares) == e * (3 * squares)
  {
  }
}
