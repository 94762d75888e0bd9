/** Tie runs of the rank loop: maximal blocks of a sorted sequence whose values lie
    less than TIE_EPS above the first value of the block, its leader. */
module TieRuns {
  import opened RealSeqs
  import opened PairCounting

  const TIE_EPS: real := 0.000000000001

  /** The leader of the run that position `k` belongs to. */
  function Leader(v: seq<real>, k: nat): real
    requires k < |v|
  {
    if k == 0 then v[0]
    else
      var l := Leader(v, k - 1);
      if v[k] - l < TIE_EPS then l else v[k]
  }

  ghost function Leaders(v: seq<real>): seq<real> {
    seq(|v|, k requires 0 <= k < |v| => Leader(v, k))
  }

  lemma {:induction false} LeaderCloseBelow(v: seq<real>, k: nat)
    requires Sorted(v) && k < |v|
    ensures Leader(v, k) <= v[k] < Leader(v, k) + TIE_EPS
  {
    if k > 0 {
      LeaderCloseBelow(v, k - 1);
    }
  }

  lemma {:induction false} LeaderMonotone(v: seq<real>, i: nat, j: nat)
    requires Sorted(v) && i <= j < |v|
    ensures Leader(v, i) <= Leader(v, j)
  {
    if i < j {
      LeaderMonotone(v, i, j - 1);
      LeaderCloseBelow(v, j - 1);
    }
  }

  lemma LeadersSorted(v: seq<real>)
    requires Sorted(v)
    ensures Sorted(Leaders(v))
  {
    forall i, j | 0 <= i < j < |v| ensures Leaders(v)[i] <= Leaders(v)[j] {
      LeaderMonotone(v, i, j);
    }
  }

  lemma {:induction false} EqualValuesShareLeader(v: seq<real>, i: nat, j: nat)
    requires Sorted(v) && i <= j < |v| && v[i] == v[j]
    ensures Leader(v, i) == Leader(v, j)
  {
    if i < j {
      EqualValuesShareLeader(v, i, j - 1);
      LeaderCloseBelow(v, j - 1);
    }
  }

  /** The leader as a function of the value: well defined, because equal values share it. */
  ghost function LeaderOf(v: seq<real>, x: real): real {
    if x in v then
      var k :| 0 <= k < |v| && v[k] == x;
      Leader(v, k)
    else x
  }

  lemma {:induction false} LeaderOfAt(v: seq<real>, k: nat)
    requires Sorted(v) && k < |v|
    ensures LeaderOf(v, v[k]) == Leader(v, k)
  {
    forall i | 0 <= i < |v| && v[i] == v[k] ensures Leader(v, i) == Leader(v, k) {
      EqualValuesShareLeader(v, if i <= k then i else k, if i <= k then k else i);
    }
  }

  /** A sample with every value replaced by the leader of its tie run in `v`. */
  ghost function Quantize(v: seq<real>, s: seq<real>): seq<real> {
    seq(|s|, i requires 0 <= i < |s| => LeaderOf(v, s[i]))
  }

  lemma QuantizeAppend(v: seq<real>, s: seq<real>, t: seq<real>)
    ensures Quantize(v, s + t) == Quantize(v, s) + Quantize(v, t)
  {
  }

  lemma QuantizeSelf(v: seq<real>)
    requires Sorted(v)
    ensures Quantize(v, v) == Leaders(v)
  {
    forall k | 0 <= k < |v| ensures Quantize(v, v)[k] == Leaders(v)[k] {
      LeaderOfAt(v, k);
    }
  }

  lemma {:induction false} QuantizePermutation(v: seq<real>, s: seq<real>, t: seq<real>)
    requires multiset(s) == multiset(t)
    ensures multiset(Quantize(v, s)) == multiset(Quantize(v, t))
  {
    if s == [] {
      assert |multiset(t)| == 0;
      assert t == [];
    } else {
      var i := IndexOf(t, s[0]) by { assert s[0] in multiset(t); }
      RemoveAt(s, t, i);
      var rest := t[..i] + t[i + 1..];
      QuantizePermutation(v, s[1..], rest);
      assert Quantize(v, s) == [LeaderOf(v, s[0])] + Quantize(v, s[1..]);
      assert Quantize(v, t) == Quantize(v, t[..i]) + [LeaderOf(v, t[i])] + Quantize(v, t[i + 1..]);
      assert Quantize(v, rest) == Quantize(v, t[..i]) + Quantize(v, t[i + 1..]);
    }
  }

  /** No two values lie strictly between 0 and TIE_EPS apart. */
  ghost predicate Separated(v: seq<real>) {
    forall x, y :: x in v && y in v && x < y ==> y - x >= TIE_EPS
  }

  /** The tolerance is invisible exactly when the values are separated. */
  lemma SeparatedIffOwnLeaders(v: seq<real>)
    requires Sorted(v)
    ensures Separated(v) <==> Leaders(v) == v
  {
    if Separated(v) {
      forall k | 0 <= k < |v| ensures Leader(v, k) == v[k] { SeparatedOwnLeader(v, k); }
    }
    if Leaders(v) == v {
      forall x, y | x in v && y in v && x < y ensures y - x >= TIE_EPS {
        var i := IndexOf(v, x);
        var j := IndexOf(v, y);
        assert Leaders(v)[i] == v[i] && Leaders(v)[j] == v[j];
        DistinctLeadersApart(v, i, j);
      }
    }
  }

  lemma {:induction false} SeparatedOwnLeader(v: seq<real>, k: nat)
    requires Sorted(v) && Separated(v) && k < |v|
    ensures Leader(v, k) == v[k]
  {
    if k > 0 {
      SeparatedOwnLeader(v, k - 1);
      assert v[k - 1] in v && v[k] in v;
    }
  }

  lemma {:induction false} DistinctLeadersApart(v: seq<real>, i: nat, j: nat)
    requires Sorted(v) && i < j < |v| && Leader(v, i) < Leader(v, j)
    ensures Leader(v, j) - Leader(v, i) >= TIE_EPS
  {
    LeaderMonotone(v, i, j - 1);
    if Leader(v, i) < Leader(v, j - 1) {
      DistinctLeadersApart(v, i, j - 1);
      LeaderMonotone(v, j - 1, j);
    }
  }

  /** The run that starts at `i` and ends before `j`. */
  ghost predicate IsRun(v: seq<real>, i: nat, j: nat) {
    && i < j <= |v|
    && (forall k :: 0 <= k < i ==> Leaders(v)[k] < v[i])
    && (forall k :: i <= k < j ==> Leaders(v)[k] == v[i])
    && (forall k :: j <= k < |v| ==> Leaders(v)[k] > v[i])
  }

  function Ties(s: seq<real>, x: real): (r: nat)
    ensures r <= |s|
  {
    if s == [] then 0 else (if s[0] == x then 1 else 0) + Ties(s[1..], x)
  }

  lemma {:induction false} TiesOfBlock(s: seq<real>, lo: nat, hi: nat, x: real)
    requires lo <= hi <= |s|
    requires forall k :: 0 <= k < lo ==> s[k] != x
    requires forall k :: lo <= k < hi ==> s[k] == x
    requires forall k :: hi <= k < |s| ==> s[k] != x
    ensures Ties(s, x) == hi - lo
  {
    if s != [] {
      var t := s[1..];
      assert forall k :: 0 <= k < |t| ==> t[k] == s[k + 1];
      TiesOfBlock(t, if lo == 0 then 0 else lo - 1, if hi == 0 then 0 else hi - 1, x);
    }
  }

  lemma {:induction false} TiesOutsidePrefix(s: seq<real>, lo: nat, x: real)
    requires lo <= |s|
    requires forall k :: 0 <= k < lo ==> s[k] != x
    ensures Ties(s, x) <= |s| - lo
  {
    if lo > 0 {
      var t := s[1..];
      assert forall k :: 0 <= k < |t| ==> t[k] == s[k + 1];
      TiesOutsidePrefix(t, lo - 1, x);
    }
  }

  /** Sum over the first `n` positions of (size of their tie block)^2 - 1; over the whole
      sequence this is the sum of t^3 - t over the blocks. */
  function TieMass(s: seq<real>, n: nat): int
    requires n <= |s|
  {
    if n == 0 then 0
    else TieMass(s, n - 1) + Excess(Ties(s, s[n - 1]))
  }

  function Excess(t: nat): int {
    t * t - 1
  }

  lemma SquareMonotone(u: nat, t: nat)
    requires u <= t
    ensures u * u <= t * t
  {
    assert u * u <= u * t <= t * t;
  }

  lemma OneMore(m: int, x: int)
    ensures m * x == (m - 1) * x + x
  {
  }

  /** Positions that each weigh at most `w` (or exactly `w`) add at most (or exactly) `w` each. */
  lemma {:induction false} TieMassSteps(s: seq<real>, i: nat, j: nat, w: int)
    requires i <= j <= |s|
    requires forall k :: i <= k < j ==> Excess(Ties(s, s[k])) <= w
    ensures TieMass(s, j) <= TieMass(s, i) + (j - i) * w
    ensures (forall k :: i <= k < j ==> Excess(Ties(s, s[k])) == w) ==> TieMass(s, j) == TieMass(s, i) + (j - i) * w
  {
    if i < j {
      TieMassSteps(s, i, j - 1, w);
      OneMore(j - i, w);
    }
  }

  lemma {:induction false} TieMassOfBlock(s: seq<real>, i: nat, j: nat, t: nat)
    requires i <= j <= |s|
    requires forall k :: i <= k < j ==> Ties(s, s[k]) == t
    ensures TieMass(s, j) == TieMass(s, i) + (j - i) * (t * t - 1)
  {
    TieMassSteps(s, i, j, Excess(t));
  }

  lemma {:induction false} TieMassBound(s: seq<real>, i: nat, j: nat, t: nat)
    requires i <= j <= |s|
    requires forall k :: i <= k < j ==> Ties(s, s[k]) <= t
    ensures TieMass(s, j) <= TieMass(s, i) + (j - i) * (t * t - 1)
  {
    forall k | i <= k < j ensures Excess(Ties(s, s[k])) <= Excess(t) {
      SquareMonotone(Ties(s, s[k]), t);
    }
    TieMassSteps(s, i, j, Excess(t));
  }

  /** One block of n equal values has mass n^3 - n. */
  lemma {:induction false} TieMassOneBlock(s: seq<real>)
    requires s != [] && forall k :: 0 <= k < |s| ==> s[k] == s[0]
    ensures var n := |s|; TieMass(s, n) == n * n * n - n
  {
    TiesOfBlock(s, 0, |s|, s[0]);
    TieMassOfBlock(s, 0, |s|, |s|);
    CubeLess(|s|);
  }

  lemma CubeLess(n: int)
    ensures n * (n * n - 1) == n * n * n - n
  {
  }

  /** With at least two blocks the mass falls short of n^3 - n by at least 3n(n - 1). */
  lemma {:induction false} TieMassManyBlocks(s: seq<real>, first: nat)
    requires Sorted(s) && 0 < first < |s|
    requires forall k :: 0 <= k < first ==> s[k] == s[0]
    requires forall k :: first <= k < |s| ==> s[k] > s[0]
    ensures var n := |s|; TieMass(s, n) <= n * n * n - n - 3 * n * (n - 1)
  {
    var n, rest := |s|, |s| - first;
    assert TieMass(s, first) == first * (first * first - 1) by {
      TiesOfBlock(s, 0, first, s[0]);
      TieMassOfBlock(s, 0, first, first);
    }
    assert TieMass(s, n) <= TieMass(s, first) + rest * (rest * rest - 1) by {
      forall k | first <= k < n ensures Ties(s, s[k]) <= rest {
        TiesOutsidePrefix(s, first, s[k]);
      }
      TieMassBound(s, first, n, rest);
    }
    CubesOfParts(first, rest);
  }

  lemma CubesOfParts(p: nat, q: nat)
    requires p >= 1 && q >= 1
    ensures var n := p + q; p * (p * p - 1) + q * (q * q - 1) <= n * n * n - n - 3 * n * (n - 1)
  {
    var n := p + q;
    CubeOfSum(p, q);
    PartsProduct(p, q);
    ScaleUp(n, n - 1, p * q);
    assert 3 * n * (n - 1) == 3 * (n * (n - 1));
  }

  lemma PartsProduct(p: nat, q: nat)
    requires p >= 1 && q >= 1
    ensures p * q >= p + q - 1
  {
    assert (p - 1) * (q - 1) >= 0;
  }

  lemma CubeOfSum(p: int, q: int)
    ensures (p + q) * (p + q) * (p + q) == p * (p * p - 1) + q * (q * q - 1) + (p + q) + 3 * ((p + q) * (p * q))
  {
  }

  lemma ScaleUp(n: nat, x: int, y: int)
    requires x <= y
    ensures n * x <= n * y
  {
  }
}
