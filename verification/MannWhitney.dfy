/** The Mann-Whitney U test: combined sort, mid-rank loop with ties, rank sum, variance. */
module MannWhitney {
  import opened RealArith
  import opened RealSeqs
  import opened PairCounting
  import opened TieRuns
  import opened Splits

  datatype Group = GroupA | GroupB
  datatype Item = Item(value: real, group: Group)

  /** A p-value: exact, or the two-sided normal tail of shift / sqrt(variance). */
  datatype PValue = Exact(p: real) | NormalTail(shift: real, variance: real)

  datatype UTest = TooFewSamples | UTest(u: real, p: PValue)

  function Tag(s: seq<real>, g: Group): seq<Item> {
    seq(|s|, i requires 0 <= i < |s| => Item(s[i], g))
  }

  function Values(c: seq<Item>): seq<real> {
    seq(|c|, i requires 0 <= i < |c| => c[i].value)
  }

  function Own(x: Item, g: Group): seq<real> {
    if x.group == g then [x.value] else []
  }

  function Members(c: seq<Item>, g: Group): seq<real> {
    if c == [] then [] else Own(c[0], g) + Members(c[1..], g)
  }

  function InsertItem(x: Item, c: seq<Item>): seq<Item> {
    if c == [] || x.value <= c[0].value then [x] + c else [c[0]] + InsertItem(x, c[1..])
  }

  /** The stable sort by value; the group labels travel with the values. */
  function SortItems(c: seq<Item>): seq<Item> {
    if c == [] then [] else InsertItem(c[0], SortItems(c[1..]))
  }

  lemma ValuesPrepend(x: Item, c: seq<Item>)
    ensures Values([x] + c) == [x.value] + Values(c)
  {
  }

  lemma {:induction false} InsertItemValues(x: Item, c: seq<Item>)
    ensures Values(InsertItem(x, c)) == Insert(x.value, Values(c))
  {
    if c == [] || x.value <= c[0].value {
      ValuesPrepend(x, c);
    } else {
      InsertItemValues(x, c[1..]);
      assert Values(c)[1..] == Values(c[1..]);
      ValuesPrepend(c[0], InsertItem(x, c[1..]));
    }
  }

  lemma {:induction false} SortItemsValues(c: seq<Item>)
    ensures Values(SortItems(c)) == Sort(Values(c))
  {
    if c != [] {
      SortItemsValues(c[1..]);
      InsertItemValues(c[0], SortItems(c[1..]));
      ValuesRest(c);
    }
  }

  lemma ValuesRest(c: seq<Item>)
    requires c != []
    ensures Values(c) != [] && Values(c)[0] == c[0].value && Values(c)[1..] == Values(c[1..])
  {
  }

  lemma {:induction false} MembersPrepend(x: Item, c: seq<Item>, g: Group)
    ensures Members([x] + c, g) == Own(x, g) + Members(c, g)
  {
    assert ([x] + c)[1..] == c;
  }

  lemma {:induction false} InsertItemMembers(x: Item, c: seq<Item>, g: Group)
    ensures multiset(Members(InsertItem(x, c), g)) == multiset(Own(x, g)) + multiset(Members(c, g))
  {
    if c == [] || x.value <= c[0].value {
      MembersPrepend(x, c, g);
    } else {
      InsertItemMembers(x, c[1..], g);
      MembersPrepend(c[0], InsertItem(x, c[1..]), g);
    }
  }

  /** Sorting moves no value from one group to the other. */
  lemma {:induction false} SortItemsMembers(c: seq<Item>, g: Group)
    ensures multiset(Members(SortItems(c), g)) == multiset(Members(c, g))
  {
    if c != [] {
      SortItemsMembers(c[1..], g);
      InsertItemMembers(c[0], SortItems(c[1..]), g);
    }
  }

  lemma {:induction false} MembersAppend(c: seq<Item>, d: seq<Item>, g: Group)
    ensures Members(c + d, g) == Members(c, g) + Members(d, g)
  {
    if c == [] {
      assert c + d == d;
    } else {
      MembersAppend(c[1..], d, g);
      assert (c + d)[1..] == c[1..] + d;
      Regroup(Own(c[0], g), Members(c[1..], g), Members(d, g));
    }
  }

  lemma Regroup(x: seq<real>, y: seq<real>, z: seq<real>)
    ensures x + (y + z) == (x + y) + z
  {
  }

  lemma {:induction false} MembersOfTag(s: seq<real>, h: Group, g: Group)
    ensures Members(Tag(s, h), g) == if g == h then s else []
  {
    if s != [] {
      MembersOfTag(s[1..], h, g);
      TagRest(s, h);
      assert s == [s[0]] + s[1..];
    }
  }

  lemma TagRest(s: seq<real>, h: Group)
    requires s != []
    ensures Tag(s, h)[1..] == Tag(s[1..], h) && Tag(s, h)[0] == Item(s[0], h)
  {
  }

  lemma {:induction false} MembersPartition(c: seq<Item>)
    ensures multiset(Values(c)) == multiset(Members(c, GroupA)) + multiset(Members(c, GroupB))
  {
    if c != [] {
      var rest := c[1..];
      ValuesPrepend(c[0], rest);
      assert c == [c[0]] + rest;
      MembersPartition(rest);
      JoinOwn(c[0], Values(rest), Members(rest, GroupA), Members(rest, GroupB));
    }
  }

  lemma JoinOwn(x: Item, v: seq<real>, a: seq<real>, b: seq<real>)
    requires multiset(v) == multiset(a) + multiset(b)
    ensures multiset([x.value] + v) == multiset(Own(x, GroupA) + a) + multiset(Own(x, GroupB) + b)
  {
  }

  lemma RealProduct(m: int, n: int)
    ensures (m * n) as real == m as real * n as real
  {
  }

  /** Twice u1: pair counting over the samples with tie runs collapsed to their leaders. */
  ghost function TwiceU1(a: seq<real>, b: seq<real>): nat {
    var v := Sort(a + b);
    PairScore(Quantize(v, a), Quantize(v, b))
  }

  /** A tie run begins at position `i` (or the sequence ends there). */
  ghost predicate RunStart(v: seq<real>, i: nat) {
    i < |v| ==> Leader(v, i) == v[i] && (i > 0 ==> Leader(v, i - 1) < v[i])
  }

  /** The inner loop: scan to the end of the tie run that starts at `i`. */
  method RunEnd(combined: seq<Item>, i: nat) returns (j: nat)
    requires i < |combined| && Sorted(Values(combined)) && RunStart(Values(combined), i)
    ensures IsRun(Values(combined), i, j)
    ensures RunStart(Values(combined), j)
  {
    ghost var v := Values(combined);
    j := i;
    while j < |combined| && Abs(combined[j].value - combined[i].value) < TIE_EPS
      invariant i <= j <= |v|
      invariant j == i ==> Abs(combined[j].value - combined[i].value) == 0.0
      invariant forall k :: i <= k < j ==> Leader(v, k) == v[i]
    {
      assert v[j] == combined[j].value && v[i] == combined[i].value;
      j := j + 1;
    }
    assert j < |v| ==> v[j] == combined[j].value && v[i] <= v[j];
    RunIsRun(v, i, j);
  }

  lemma {:induction false} RunIsRun(v: seq<real>, i: nat, j: nat)
    requires Sorted(v) && i < j <= |v| && RunStart(v, i)
    requires forall k :: i <= k < j ==> Leader(v, k) == v[i]
    requires j < |v| ==> v[j] - v[i] >= TIE_EPS
    ensures IsRun(v, i, j) && RunStart(v, j)
  {
    forall k | 0 <= k < i ensures Leader(v, k) < v[i] {
      LeaderMonotone(v, k, i - 1);
    }
    forall k | j <= k < |v| ensures Leader(v, k) > v[i] {
      assert Leader(v, j - 1) == v[i];
      LeaderMonotone(v, j, k);
    }
  }

  ghost predicate RanksDone(ranks: array<real>, q: seq<real>, n: nat)
    requires n <= |q| == ranks.Length
    reads ranks
  {
    forall k :: 0 <= k < n ==> 2.0 * ranks[k] == (Wins(q, q[k]) + 1) as real
  }

  /** The innermost loop: the whole run gets one rank. */
  method FillRanks(ranks: array<real>, i: nat, j: nat, avgRank: real, ghost q: seq<real>)
    requires i <= j <= |q| == ranks.Length && RanksDone(ranks, q, i)
    requires forall k :: i <= k < j ==> 2.0 * avgRank == (Wins(q, q[k]) + 1) as real
    modifies ranks
    ensures RanksDone(ranks, q, j)
  {
    for k := i to j
      invariant RanksDone(ranks, q, k)
    {
      ranks[k] := avgRank;
    }
  }

  /** The rank loop: every position gets the middle rank of its tie run, and the tie
      correction accumulates (t^3 - t) / (n(n - 1)) over the runs. */
  method AssignMidRanks(combined: seq<Item>) returns (ranks: array<real>, tieSum: real)
    requires |combined| >= 2 && Sorted(Values(combined))
    ensures fresh(ranks) && ranks.Length == |combined|
    ensures RanksDone(ranks, Leaders(Values(combined)), |combined|)
    ensures tieSum == TieShare(Leaders(Values(combined)), |combined|, Pairs(|combined|))
  {
    var n := |combined|;
    ghost var v := Values(combined);
    ghost var q := Leaders(v);
    var pairs := Pairs(n);
    ranks := new real[n](_ => 0.0);
    tieSum := 0.0;
    var i := 0;
    while i < n
      invariant i <= n && RunStart(v, i)
      invariant RanksDone(ranks, q, i)
      invariant tieSum == TieShare(q, i, pairs)
    {
      var j := RunEnd(combined, i);
      var tieCount := (j - i) as real;
      var avgRank := (i + 1 + j) as real / 2.0;
      WinsOfRun(q, i, j, v[i]);
      FillRanks(ranks, i, j, avgRank, q);
      TieSumOfRun(v, i, j, pairs);
      if tieCount > 1.0 {
        tieSum := tieSum + TieTerm(tieCount, pairs);
      }
      i := j;
    }
  }

  lemma {:induction false} TieMassOfRun(v: seq<real>, i: nat, j: nat)
    requires IsRun(v, i, j)
    ensures var t := j - i; TieMass(Leaders(v), j) == TieMass(Leaders(v), i) + t * (t * t - 1)
  {
    TiesOfBlock(Leaders(v), i, j, v[i]);
    TieMassOfBlock(Leaders(v), i, j, j - i);
  }

  function Pairs(n: nat): (r: real)
    requires n >= 2
    ensures r > 0.0
  {
    n as real * (n as real - 1.0)
  }

  lemma TieSumOfRun(v: seq<real>, i: nat, j: nat, pairs: real)
    requires IsRun(v, i, j) && pairs > 0.0
    ensures var t := (j - i) as real;
            TieShare(Leaders(v), j, pairs) ==
            TieShare(Leaders(v), i, pairs) + if t > 1.0 then TieTerm(t, pairs) else 0.0
  {
    TieMassOfRun(v, i, j);
    TieSumStep(TieMass(Leaders(v), i), TieMass(Leaders(v), j), j - i, pairs);
  }

  /** The tie correction of the first `n` positions. */
  ghost function TieShare(q: seq<real>, n: nat, pairs: real): real
    requires n <= |q| && pairs > 0.0
  {
    TieMass(q, n) as real / pairs
  }

  lemma TieSumStep(before: int, after: int, t: nat, pairs: real)
    requires t >= 1 && after == before + t * (t * t - 1) && pairs > 0.0
    ensures after as real / pairs == before as real / pairs + if t as real > 1.0 then TieTerm(t as real, pairs) else 0.0
  {
    assert t == 1 ==> Cubed(t as real) - t as real == 0.0;
    RealCube(t);
    SumOfQuotients(before as real, Cubed(t as real) - t as real, pairs);
  }

  function Cubed(t: real): real {
    t * t * t
  }

  function TieTerm(t: real, pairs: real): real
    requires pairs > 0.0
  {
    (Cubed(t) - t) / pairs
  }

  lemma RealCube(t: int)
    ensures (t * (t * t - 1)) as real == Cubed(t as real) - t as real
  {
    RealProduct(t, t * t - 1);
    RealProduct(t, t);
  }

  lemma SumOfQuotients(x: real, y: real, d: real)
    requires d != 0.0
    ensures (x + y) / d == x / d + y / d
  {
  }

  /** The leaders of the group's members, in combined order. */
  ghost function GroupLeaders(c: seq<Item>, g: Group): seq<real> {
    Quantize(Values(c), Members(c, g))
  }

  ghost function RankPoints(c: seq<Item>, k: nat): int
    requires k <= |c|
  {
    var m := Members(c[..k], GroupA);
    PairScore(Leaders(Values(c)), Quantize(Values(c), m)) + |m|
  }

  lemma RankPointsStep(c: seq<Item>, k: nat)
    requires Sorted(Values(c)) && k < |c|
    ensures RankPoints(c, k + 1) == RankPoints(c, k)
            + if c[k].group == GroupA then Wins(Leaders(Values(c)), Leaders(Values(c))[k]) + 1 else 0
  {
    var v, q, m := Values(c), Leaders(Values(c)), Members(c[..k], GroupA);
    assert Members(c[..k + 1], GroupA) == m + Own(c[k], GroupA) by {
      assert c[..k + 1] == c[..k] + [c[k]];
      MembersAppend(c[..k], [c[k]], GroupA);
      assert [c[k]][1..] == [];
    }
    if c[k].group == GroupA {
      assert Quantize(v, m + [v[k]]) == Quantize(v, m) + [q[k]] by { LeaderOfAt(v, k); }
      PairScoreOneMore(q, Quantize(v, m), q[k]);
    } else {
      assert m + [] == m;
    }
  }

  /** The rank-sum loop over group A. */
  method RankSumA(combined: seq<Item>, ranks: array<real>) returns (sum: real)
    requires Sorted(Values(combined)) && ranks.Length == |combined|
    requires RanksDone(ranks, Leaders(Values(combined)), |combined|)
    ensures 2.0 * sum == RankPoints(combined, |combined|) as real
  {
    sum := 0.0;
    for k := 0 to |combined|
      invariant 2.0 * sum == RankPoints(combined, k) as real
    {
      RankPointsStep(combined, k);
      if combined[k].group == GroupA {
        sum := sum + ranks[k];
      }
    }
  }

  /** Rank sums are pair counts: the points of group A's ranks against everybody. */
  lemma RankPointsArePairScore(c: seq<Item>)
    requires Sorted(Values(c))
    ensures var qa, qb := GroupLeaders(c, GroupA), GroupLeaders(c, GroupB);
            RankPoints(c, |c|) == |qa| + |qa| * |qa| + 2 * |qa| * |qb| - PairScore(qa, qb)
  {
    var v := Values(c);
    var ma, mb := Members(c, GroupA), Members(c, GroupB);
    var qa, qb := Quantize(v, ma), Quantize(v, mb);
    assert c[..|c|] == c;
    assert PairScore(Leaders(v), qa) == PairScore(qa, qa) + PairScore(qb, qa) by {
      MembersPartition(c);
      QuantizePermutation(v, v, ma + mb);
      QuantizeSelf(v);
      QuantizeAppend(v, ma, mb);
      PairScorePermutation(Leaders(v), qa, qa + qb, qa);
      PairScoreAppendLeft(qa, qb, qa);
    }
    PairScoreConserved(qa, qa);
    PairScoreConserved(qa, qb);
    HalfOfSquare(PairScore(qa, qa), |qa|);
  }

  lemma HalfOfSquare(x: int, n: int)
    requires x + x == 2 * n * n
    ensures x == n * n
  {
  }

  /** The combined, sorted items know both samples up to order. */
  lemma {:induction false} CombinedFacts(a: seq<real>, b: seq<real>)
    ensures var c := SortItems(Tag(a, GroupA) + Tag(b, GroupB));
            && Values(c) == Sort(a + b) && |c| == |a| + |b|
            && |GroupLeaders(c, GroupA)| == |a| && |GroupLeaders(c, GroupB)| == |b|
            && PairScore(GroupLeaders(c, GroupA), GroupLeaders(c, GroupB)) == TwiceU1(a, b)
  {
    var d := Tag(a, GroupA) + Tag(b, GroupB);
    CombinedValues(a, b, d);
    GroupIsSample(d, a, GroupA) by { MembersOfCombined(a, b, GroupA); }
    GroupIsSample(d, b, GroupB) by { MembersOfCombined(a, b, GroupB); }
    CombinedScore(a, b, SortItems(d));
  }

  lemma {:induction false} CombinedValues(a: seq<real>, b: seq<real>, d: seq<Item>)
    requires d == Tag(a, GroupA) + Tag(b, GroupB)
    ensures Values(SortItems(d)) == Sort(a + b) && |SortItems(d)| == |a| + |b|
  {
    SortItemsValues(d);
    TaggedValues(a, b, d);
    assert |Values(SortItems(d))| == |SortItems(d)|;
  }

  lemma TaggedValues(a: seq<real>, b: seq<real>, d: seq<Item>)
    requires d == Tag(a, GroupA) + Tag(b, GroupB)
    ensures Values(d) == a + b
  {
    forall k | 0 <= k < |a| + |b| ensures Values(d)[k] == (a + b)[k] {
      assert Values(d)[k] == d[k].value;
    }
  }

  lemma {:induction false} CombinedScore(a: seq<real>, b: seq<real>, c: seq<Item>)
    requires Values(c) == Sort(a + b)
    requires multiset(GroupLeaders(c, GroupA)) == multiset(Quantize(Values(c), a))
    requires multiset(GroupLeaders(c, GroupB)) == multiset(Quantize(Values(c), b))
    ensures PairScore(GroupLeaders(c, GroupA), GroupLeaders(c, GroupB)) == TwiceU1(a, b)
  {
    var v := Values(c);
    PairScorePermutation(GroupLeaders(c, GroupA), GroupLeaders(c, GroupB), Quantize(v, a), Quantize(v, b));
  }

  lemma {:induction false} MembersOfCombined(a: seq<real>, b: seq<real>, g: Group)
    ensures Members(Tag(a, GroupA) + Tag(b, GroupB), g) == if g == GroupA then a else b
  {
    MembersAppend(Tag(a, GroupA), Tag(b, GroupB), g);
    MembersOfTag(a, GroupA, g);
    MembersOfTag(b, GroupB, g);
  }

  lemma {:induction false} GroupIsSample(d: seq<Item>, s: seq<real>, g: Group)
    requires Members(d, g) == s
    ensures var c := SortItems(d);
            && multiset(GroupLeaders(c, g)) == multiset(Quantize(Values(c), s))
            && |GroupLeaders(c, g)| == |s|
  {
    var c := SortItems(d);
    SortItemsMembers(d, g);
    QuantizePermutation(Values(c), Members(c, g), s);
    assert |multiset(GroupLeaders(c, g))| == |multiset(Quantize(Values(c), s))|;
  }

  /** All values lie less than TIE_EPS above the smallest: one tie run. */
  ghost predicate OneRun(v: seq<real>) {
    v != [] && v[|v| - 1] - v[0] < TIE_EPS
  }

  lemma {:induction false} OneRunOneLeader(v: seq<real>, k: nat)
    requires Sorted(v) && OneRun(v) && k < |v|
    ensures Leader(v, k) == v[0]
  {
    if k > 0 {
      OneRunOneLeader(v, k - 1);
    }
  }

  ghost function UVariance(a: seq<real>, b: seq<real>): real
    requires |a| >= 2 && |b| >= 2
  {
    VarianceOf(|a|, |b|, TieSum(Sort(a + b)))
  }

  /** Sum of (t^3 - t) / (n(n - 1)) over the tie runs of a sorted sequence. */
  ghost function TieSum(v: seq<real>): real
    requires |v| >= 2
  {
    TieMass(Leaders(v), |v|) as real / Pairs(|v|)
  }

  function VarianceOf(n1: nat, n2: nat, tieSum: real): real {
    (n1 as real * n2 as real / 12.0) * (((n1 + n2) as real + 1.0) - tieSum)
  }

  lemma MassQuotient(mass: int, n: nat, c: int)
    requires n >= 2
    ensures mass == c * (n * (n - 1)) ==> mass as real / Pairs(n) == c as real
    ensures mass <= c * (n * (n - 1)) ==> mass as real / Pairs(n) <= c as real
  {
    RealProduct(n, n - 1);
    RealProduct(c, n * (n - 1));
    var d := Pairs(n);
    assert (c as real * d) / d == c as real;
    if mass <= c * (n * (n - 1)) {
      QuotientMonotone(mass as real, c as real * d, d);
    }
  }

  lemma QuotientMonotone(x: real, y: real, d: real)
    requires x <= y && d > 0.0
    ensures x / d <= y / d
  {
  }

  /** The variance vanishes exactly on a single tie run, where every pair is a tie; on any
      other input it is at least n1*n2/4, so the square root is taken of a positive number. */
  lemma {:induction false} VarianceDichotomy(a: seq<real>, b: seq<real>)
    requires |a| >= 2 && |b| >= 2
    ensures OneRun(Sort(a + b)) ==> UVariance(a, b) == 0.0 && TwiceU1(a, b) == |a| * |b|
    ensures !OneRun(Sort(a + b)) ==> SafeVariance(|a|, |b|, UVariance(a, b))
  {
    var v := Sort(a + b);
    if OneRun(v) {
      VarianceZero(|a|, |b|, TieSum(v)) by { OneRunTieSum(v); }
      OneRunAllTied(a, b);
    } else {
      VarianceAtLeast(|a|, |b|, TieSum(v)) by { ManyRunsTieSum(v); }
    }
  }

  lemma OneRunTieSum(v: seq<real>)
    requires Sorted(v) && OneRun(v) && |v| >= 2
    ensures TieSum(v) == |v| as real + 1.0
  {
    var q, n := Leaders(v), |v|;
    forall k | 0 <= k < n ensures q[k] == v[0] { OneRunOneLeader(v, k); }
    TieMassOneBlock(q);
    CubeForms(n);
    MassQuotient(TieMass(q, n), n, n + 1);
  }

  lemma ManyRunsTieSum(v: seq<real>)
    requires Sorted(v) && !OneRun(v) && |v| >= 2
    ensures TieSum(v) <= |v| as real - 2.0
  {
    ManyRunsMass(v);
    CubeForms(|v|);
    MassQuotient(TieMass(Leaders(v), |v|), |v|, |v| - 2);
  }

  lemma CubeForms(n: int)
    ensures n * n * n - n == (n + 1) * (n * (n - 1))
    ensures n * n * n - n - 3 * n * (n - 1) == (n - 2) * (n * (n - 1))
  {
  }

  lemma {:induction false} OneRunAllTied(a: seq<real>, b: seq<real>)
    requires OneRun(Sort(a + b))
    ensures TwiceU1(a, b) == |a| * |b|
  {
    var v := Sort(a + b);
    SortHasSameElements(a + b);
    AllTiedSample(v, a);
    AllTiedSample(v, b);
    PairScoreAllTied(Quantize(v, a), Quantize(v, b), v[0]);
  }

  /** At least a quarter of the number of pairs, hence at least 1. */
  ghost predicate SafeVariance(n1: nat, n2: nat, x: real) {
    x >= n1 as real * n2 as real / 4.0 >= 1.0
  }

  lemma VarianceZero(n1: nat, n2: nat, tieSum: real)
    requires tieSum == (n1 + n2) as real + 1.0
    ensures VarianceOf(n1, n2, tieSum) == 0.0
  {
  }

  lemma VarianceAtLeast(n1: nat, n2: nat, tieSum: real)
    requires n1 >= 2 && n2 >= 2 && tieSum <= (n1 + n2) as real - 2.0
    ensures SafeVariance(n1, n2, VarianceOf(n1, n2, tieSum))
  {
    var x, y := n1 as real * n2 as real, ((n1 + n2) as real + 1.0) - tieSum;
    assert x >= 4.0 && y >= 3.0;
    assert (x / 12.0) * y >= (x / 12.0) * 3.0;
  }

  lemma AllTiedSample(v: seq<real>, s: seq<real>)
    requires Sorted(v) && OneRun(v) && forall x :: x in s ==> x in v
    ensures forall x :: x in Quantize(v, s) ==> x == v[0]
  {
    forall i | 0 <= i < |s| ensures Quantize(v, s)[i] == v[0] {
      var k := IndexOf(v, s[i]);
      LeaderOfAt(v, k);
      OneRunOneLeader(v, k);
    }
  }

  lemma ManyRunsMass(v: seq<real>)
    requires Sorted(v) && v != [] && !OneRun(v)
    ensures var n := |v|; TieMass(Leaders(v), n) <= n * n * n - n - 3 * n * (n - 1)
  {
    var q, n := Leaders(v), |v|;
    LeadersSorted(v);
    LeaderCloseBelow(v, n - 1);
    assert q[0] < q[n - 1];
    var first := 1;
    while q[first] == q[0]
      invariant 0 < first < n && forall k :: 0 <= k < first ==> q[k] == q[0]
      decreases n - first
    {
      first := first + 1;
    }
    TieMassManyBlocks(q, first);
  }

  /** The shift of the continuity-corrected z: never positive. */
  function Shift(u: real, mu: real): real {
    if u < mu then u - mu + 0.5 else 0.0
  }

  function Min(x: int, y: int): int {
    if x <= y then x else y
  }

  /** From the samples to u1 and the tie correction. */
  method RankStatistic(a: seq<real>, b: seq<real>) returns (u1: real, tieSum: real)
    requires |a| >= 2 && |b| >= 2
    ensures 2.0 * u1 == TwiceU1(a, b) as real
    ensures VarianceOf(|a|, |b|, tieSum) == UVariance(a, b)
  {
    var combined := SortItems(Tag(a, GroupA) + Tag(b, GroupB));
    CombinedFacts(a, b);
    var ranks;
    ranks, tieSum := AssignMidRanks(combined);
    var rankSumA := RankSumA(combined, ranks);
    u1 := U1Of(|a| as real, |b| as real, rankSumA);
    RankPointsArePairScore(combined);
    TwiceU1IsInteger(|a|, |b|, TwiceU1(a, b), rankSumA);
  }

  /** The variance guard and the continuity-corrected z, all branches. */
  function PValueOf(u: real, mu: real, varU: real): PValue {
    if varU <= 0.000000000001 then
      Exact(if Abs(u - mu) < 0.000000000001 then 1.0 else 0.0)
    else
      NormalTail(if u < mu then u - mu + 0.5 else if u > mu then u - mu - 0.5 else 0.0, varU)
  }

  /** The doubled U: the smaller of the two doubled pair counts. */
  ghost function TwiceU(a: seq<real>, b: seq<real>): int {
    Min(TwiceU1(a, b), 2 * (|a| * |b|) - TwiceU1(a, b))
  }

  function TailOrOne(oneRun: bool, u: real, pairs: nat, variance: real): PValue {
    if oneRun then Exact(1.0) else NormalTail(Shift(u, pairs as real / 2.0), variance)
  }

  ghost function ExpectedP(a: seq<real>, b: seq<real>, u: real): PValue
    requires |a| >= 2 && |b| >= 2
  {
    TailOrOne(OneRun(Sort(a + b)), u, |a| * |b|, UVariance(a, b))
  }

  lemma PValueIsExpected(a: seq<real>, b: seq<real>, u: real)
    requires |a| >= 2 && |b| >= 2
    requires var mu := (|a| * |b|) as real / 2.0;
             && u <= mu
             && (u < mu ==> u - mu + 0.5 <= 0.0)
             && (TwiceU1(a, b) == |a| * |b| ==> u == mu)
    ensures PValueOf(u, (|a| * |b|) as real / 2.0, UVariance(a, b)) == ExpectedP(a, b, u)
    ensures var p := ExpectedP(a, b, u);
            p.NormalTail? ==> p.shift <= 0.0 && SafeVariance(|a|, |b|, p.variance)
  {
    VarianceDichotomy(a, b);
  }

  function SmallerU(u1: real, pairs: real): real {
    var u2 := pairs - u1;
    if u1 <= u2 then u1 else u2
  }

  /** How far U lies below its mean n1 n2 / 2, less the half point of the continuity correction,
      which never takes it past the mean. */
  ghost predicate CorrectedShift(a: seq<real>, b: seq<real>, shift: real) {
    2.0 * shift == Min(0, TwiceU(a, b) - |a| * |b| + 1) as real
  }

  lemma Conclude(a: seq<real>, b: seq<real>, u1: real, pairs: real)
    requires |a| >= 2 && |b| >= 2 && 2.0 * u1 == TwiceU1(a, b) as real
    requires pairs == (|a| * |b|) as real
    ensures var u := SmallerU(u1, pairs);
            && 2.0 * u == TwiceU(a, b) as real
            && PValueOf(u, pairs / 2.0, UVariance(a, b)) == ExpectedP(a, b, u)
            && var p := ExpectedP(a, b, u);
               p.NormalTail? ==> CorrectedShift(a, b, p.shift) && SafeVariance(|a|, |b|, p.variance)
  {
    SmallerHalf(u1, TwiceU1(a, b), |a| * |b|);
    PValueIsExpected(a, b, SmallerU(u1, pairs));
  }

  /** The variance of u1 over all ways to deal the pooled values into samples of these sizes: four
      times it, for each deal, is what the squared doubled deviations from the middle add up to. */
  ghost predicate DealVariance(a: seq<real>, b: seq<real>, variance: real) {
    FourTimes(Choose(|a| + |b|, |a|), variance, SquaresOver(Leaders(Sort(a + b)), |a|, [], []))
  }

  /** The formula with its tie correction is exactly that variance, and n1 n2 / 2 exactly the mean. */
  lemma {:induction false} VarianceOverDeals(a: seq<real>, b: seq<real>)
    requires |a| >= 2 && |b| >= 2
    ensures DealVariance(a, b, UVariance(a, b))
    ensures DeviationsOver(Leaders(Sort(a + b)), |a|, [], []) == 0
  {
    var q, n := Leaders(Sort(a + b)), |a| + |b|;
    LeadersSorted(Sort(a + b));
    var mass, all, e := TieMass(q, n), Choose(n, |a|), Choose(n - 2, |a| - 1);
    CountsOfDeals(q, |a|, |b|, n);
    VarianceOfMass(a, b, n, mass);
    DealLaw(|a|, |b|, n, mass, all, e, SquaresOver(q, |a|, [], []), UVariance(a, b));
  }

  lemma {:induction false} VarianceOfMass(a: seq<real>, b: seq<real>, n: nat, mass: int)
    requires |a| >= 2 && |b| >= 2 && n == |a| + |b| && mass == TieMass(Leaders(Sort(a + b)), n)
    ensures UVariance(a, b) == VarianceOf(|a|, |b|, mass as real / Pairs(n))
  {
    assert |Sort(a + b)| == n;
  }

  lemma DealLaw(n1: nat, n2: nat, n: nat, mass: int, all: nat, e: nat, squares: int, v: real)
    requires n1 >= 2 && n2 >= 2 && n == n1 + n2 && DealCounts(n1, n2, n, mass, all, e, squares)
    requires v == VarianceOf(n1, n2, mass as real / Pairs(n))
    ensures FourTimes(all, v, squares)
  {
    VarianceTimesPairs(n1, n2, n, mass, v);
    PairsAreReal(n);
    DealCancels(all, e, n1 * n2, n * (n - 1), n * n * n - n - mass, squares, v, Pairs(n));
  }

  ghost predicate FourTimes(all: nat, v: real, squares: int) {
    4.0 * (all as real * v) == squares as real
  }

  lemma PairsAreReal(n: nat)
    requires n >= 2
    ensures Pairs(n) == (n * (n - 1)) as real
  {
    RealProduct(n, n - 1);
  }

  /** The variance without its quotients. */
  lemma VarianceTimesPairs(n1: nat, n2: nat, n: nat, mass: int, v: real)
    requires n1 >= 2 && n2 >= 2 && n == n1 + n2 && v == VarianceOf(n1, n2, mass as real / Pairs(n))
    ensures 12.0 * (Pairs(n) * v) == ((n1 * n2) * (n * n * n - n - mass)) as real
  {
    var t := mass as real / Pairs(n);
    assert Pairs(n) * t == mass as real;
    PairsTimesOneMore(n);
    RealProduct(n1, n2);
    RealProduct(n1 * n2, n * n * n - n - mass);
    VarianceAlgebra(n1 as real * n2 as real, Pairs(n), n as real + 1.0, t, v);
  }

  lemma PairsTimesOneMore(n: nat)
    requires n >= 2
    ensures Pairs(n) * (n as real + 1.0) == (n * n * n - n) as real
  {
    RealProduct(n, n);
    RealProduct(n * n, n);
    var x := n as real;
    assert (x * (x - 1.0)) * (x + 1.0) == x * x * x - x;
  }

  lemma VarianceAlgebra(p: real, pairs: real, x: real, t: real, v: real)
    requires v == (p / 12.0) * (x - t)
    ensures 12.0 * (pairs * v) == p * (pairs * x - pairs * t)
  {
  }

  lemma DealCancels(all: nat, e: nat, p: int, pn: int, m: int, squares: int, v: real, pairs: real)
    requires e * pn == all * p && 3 * squares == e * m && pairs == pn as real && pairs > 0.0
    requires 12.0 * (pairs * v) == (p * m) as real
    ensures FourTimes(all, v, squares)
  {
    var x := 4.0 * (all as real * v);
    assert all * (p * m) == pn * (3 * squares) by {
      assert all * (p * m) == (all * p) * m == (e * pn) * m == pn * (e * m);
    }
    RealProduct(all, p * m);
    RealProduct(pn, 3 * squares);
    assert 3.0 * (pairs * x) == all as real * (12.0 * (pairs * v));
    assert pairs * (3.0 * x) == pairs * (3 * squares) as real;
    CancelReal(3.0 * x, (3 * squares) as real, pairs);
  }

  lemma CancelReal(x: real, y: real, d: real)
    requires d > 0.0 && d * x == d * y
    ensures x == y
  {
  }

  /** The whole test. U is the smaller of the two pair counts; the p-value is exactly 1 on a
      single tie run and otherwise the normal tail of a shift that is never positive over a
      variance that is never below 1 and is the variance over all deals of the values. */
  method MannWhitneyUTest(a: seq<real>, b: seq<real>) returns (r: UTest)
    ensures r.TooFewSamples? <==> |a| < 2 || |b| < 2
    ensures r.UTest? ==> 2.0 * r.u == TwiceU(a, b) as real
    ensures r.UTest? ==> r.p == ExpectedP(a, b, r.u)
    ensures r.UTest? && r.p.NormalTail? ==> CorrectedShift(a, b, r.p.shift) && SafeVariance(|a|, |b|, r.p.variance)
    ensures r.UTest? && r.p.NormalTail? ==> DealVariance(a, b, r.p.variance)
  {
    if |a| < 2 || |b| < 2 {
      return TooFewSamples;
    }
    var u1, tieSum := RankStatistic(a, b);
    var pairs := (|a| * |b|) as real;
    var u := SmallerU(u1, pairs);
    var varU := VarianceOf(|a|, |b|, tieSum);
    r := UTest(u, PValueOf(u, pairs / 2.0, varU));
    Conclude(a, b, u1, pairs);
    VarianceOverDeals(a, b);
  }

  function U1Of(n1: real, n2: real, rankSumA: real): real {
    n1 * n2 + (n1 * (n1 + 1.0)) / 2.0 - rankSumA
  }

  lemma TwiceU1IsInteger(n1: nat, n2: nat, w: int, rankSum: real)
    requires 2.0 * rankSum == (n1 + n1 * n1 + 2 * n1 * n2 - w) as real
    ensures var x, y := n1 as real, n2 as real;
            2.0 * U1Of(x, y, rankSum) == w as real
  {
    RealProduct(n1, n1);
    RealProduct(n1, n2);
    assert 2 * n1 * n2 == 2 * (n1 * n2);
  }

  /** The smaller of u1 and u2 is half an integer, so below the mean it is below it by at
      least one half: the continuity correction never overshoots. */
  lemma SmallerHalf(u1: real, w: int, pairs: nat)
    requires 2.0 * u1 == w as real
    ensures var u := SmallerU(u1, pairs as real);
            var mu := pairs as real / 2.0;
            && 2.0 * u == Min(w, 2 * pairs - w) as real
            && u <= mu
            && (u < mu ==> u - mu + 0.5 <= 0.0)
            && (w == pairs ==> u == mu)
  {
    var u := SmallerU(u1, pairs as real);
    if u < pairs as real / 2.0 {
      assert Min(w, 2 * pairs - w) < pairs;
    }
  }

  lemma {:induction false} SwapSorts(a: seq<real>, b: seq<real>)
    ensures Sort(a + b) == Sort(b + a)
  {
    SortedIsUnique(Sort(a + b), Sort(b + a)) by { assert multiset(a + b) == multiset(b + a); }
  }

  /** Swapping the samples mirrors u1 and leaves U unchanged. */
  lemma SwapKeepsU(a: seq<real>, b: seq<real>)
    ensures TwiceU1(a, b) + TwiceU1(b, a) == 2 * (|a| * |b|)
    ensures TwiceU(a, b) == TwiceU(b, a)
  {
    SwapSorts(a, b);
    var v := Sort(a + b);
    var qa, qb := Quantize(v, a), Quantize(v, b);
    PairScoreConserved(qa, qb);
    Commutes(|a|, |b|);
    MinMirror(PairScore(qa, qb), PairScore(qb, qa), |a| * |b|, |b| * |a|);
  }

  lemma Commutes(m: int, n: int)
    ensures m * n == n * m && 2 * m * n == 2 * (m * n)
  {
  }

  lemma MinMirror(w: int, w': int, p: int, p': int)
    requires w + w' == 2 * p && p == p'
    ensures Min(w, 2 * p - w) == Min(w', 2 * p' - w')
  {
  }

  /** Swapping the samples leaves the p-value unchanged too. */
  lemma SwapKeepsP(a: seq<real>, b: seq<real>, u: real)
    requires |a| >= 2 && |b| >= 2
    ensures ExpectedP(a, b, u) == ExpectedP(b, a, u)
  {
    SwapSorts(a, b);
    SwapKeepsVariance(a, b);
    Commutes(|a|, |b|);
  }

  lemma SwapKeepsVariance(a: seq<real>, b: seq<real>)
    requires |a| >= 2 && |b| >= 2
    ensures UVariance(a, b) == UVariance(b, a)
  {
    SwapSorts(a, b);
    VarianceSymmetric(|a|, |b|, TieSum(Sort(a + b)));
  }

  lemma VarianceSymmetric(n1: nat, n2: nat, tieSum: real)
    ensures VarianceOf(n1, n2, tieSum) == VarianceOf(n2, n1, tieSum)
  {
    assert n1 as real * n2 as real == n2 as real * n1 as real;
  }

  // ----- what the tolerance changes -----

  /** The two values lie in one tie run of `v`. */
  ghost predicate Merged(v: seq<real>, x: real, y: real) {
    LeaderOf(v, x) == LeaderOf(v, y)
  }

  /** A pair is merged into a tie or keeps its score. */
  lemma PairKeepsScore(v: seq<real>, x: real, y: real)
    requires Sorted(v) && x in v && y in v
    ensures Score(LeaderOf(v, x), LeaderOf(v, y)) == if Merged(v, x, y) then 1 else Score(x, y)
  {
    var i := IndexOf(v, x);
    var j := IndexOf(v, y);
    LeaderOfAt(v, i);
    LeaderOfAt(v, j);
    LeaderMonotone(v, if i <= j then i else j, if i <= j then j else i);
  }

  /** Merged pairs lie less than the tolerance apart. */
  lemma MergedIsClose(v: seq<real>, x: real, y: real)
    requires Sorted(v) && x in v && y in v && Merged(v, x, y)
    ensures -TIE_EPS < x - y < TIE_EPS
  {
    var i := IndexOf(v, x);
    var j := IndexOf(v, y);
    LeaderOfAt(v, i);
    LeaderOfAt(v, j);
    LeaderCloseBelow(v, i);
    LeaderCloseBelow(v, j);
  }

  /** How many of the merged pairs had a < b (`below`) or a > b: one value of `b` against all of
      `a`, and then all pairs. */
  ghost function MergedWith(v: seq<real>, a: seq<real>, y: real, below: bool): nat {
    if a == [] then 0
    else (if Merged(v, a[0], y) && (if below then a[0] < y else a[0] > y) then 1 else 0)
         + MergedWith(v, a[1..], y, below)
  }

  ghost function MergedPairs(v: seq<real>, a: seq<real>, b: seq<real>, below: bool): nat {
    if b == [] then 0 else MergedWith(v, a, b[0], below) + MergedPairs(v, a, b[1..], below)
  }

  lemma {:induction false} MergingShiftsWins(v: seq<real>, a: seq<real>, y: real)
    requires Sorted(v) && y in v && forall x :: x in a ==> x in v
    ensures Wins(Quantize(v, a), LeaderOf(v, y)) + MergedWith(v, a, y, true)
            == Wins(a, y) + MergedWith(v, a, y, false)
  {
    if a != [] {
      assert a[0] in a && forall x :: x in a[1..] ==> x in a;
      MergingShiftsWins(v, a[1..], y);
      PairKeepsScore(v, a[0], y);
      assert Quantize(v, a)[1..] == Quantize(v, a[1..]);
    }
  }

  lemma {:induction false} MergingShiftsScore(v: seq<real>, a: seq<real>, b: seq<real>)
    requires Sorted(v) && (forall x :: x in a ==> x in v) && forall y :: y in b ==> y in v
    ensures PairScore(Quantize(v, a), Quantize(v, b)) + MergedPairs(v, a, b, true)
            == PairScore(a, b) + MergedPairs(v, a, b, false)
  {
    if b != [] {
      assert b[0] in b && forall y :: y in b[1..] ==> y in b;
      MergingShiftsScore(v, a, b[1..]);
      MergingShiftsWins(v, a, b[0]);
      assert Quantize(v, b)[1..] == Quantize(v, b[1..]);
    }
  }

  /** What the tolerance does to u1, for all samples: every merged pair with a < b loses half a
      point and every merged pair with a > b gains one. So u1 is the plain pair count if and
      only if the merged pairs fall on both sides equally often. */
  lemma {:induction false} ToleranceShiftsCount(a: seq<real>, b: seq<real>)
    ensures var v := Sort(a + b);
            && TwiceU1(a, b) + MergedPairs(v, a, b, true) == PairScore(a, b) + MergedPairs(v, a, b, false)
            && (TwiceU1(a, b) == PairScore(a, b) <==> MergedPairs(v, a, b, true) == MergedPairs(v, a, b, false))
  {
    SortHasSameElements(a + b);
    MergingShiftsScore(Sort(a + b), a, b);
  }

  /** No value of one sample lies closer than the tolerance to a different one of the other. */
  ghost predicate Apart(a: seq<real>, b: seq<real>) {
    forall x, y :: x in a && y in b ==> x == y || x - y >= TIE_EPS || y - x >= TIE_EPS
  }

  lemma {:induction false} ApartNeverMerged(v: seq<real>, a: seq<real>, y: real, below: bool)
    requires Sorted(v) && y in v && (forall x :: x in a ==> x in v) && Apart(a, [y])
    ensures MergedWith(v, a, y, below) == 0
  {
    if a != [] {
      assert a[0] in a && y in [y] && forall x :: x in a[1..] ==> x in a;
      ApartNeverMerged(v, a[1..], y, below);
      if Merged(v, a[0], y) {
        MergedIsClose(v, a[0], y);
      }
    }
  }

  lemma {:induction false} ApartNoMergedPairs(v: seq<real>, a: seq<real>, b: seq<real>, below: bool)
    requires Sorted(v) && (forall x :: x in a ==> x in v) && (forall y :: y in b ==> y in v) && Apart(a, b)
    ensures MergedPairs(v, a, b, below) == 0
  {
    if b != [] {
      assert b[0] in b && forall y :: y in b[1..] ==> y in b;
      ApartNeverMerged(v, a, b[0], below);
      ApartNoMergedPairs(v, a, b[1..], below);
    }
  }

  /** Values within one sample may lie as close as they like: u1 is the plain pair count as soon
      as values of different samples are equal or the tolerance apart. */
  lemma {:induction false} ApartCountsPairs(a: seq<real>, b: seq<real>)
    requires Apart(a, b)
    ensures TwiceU1(a, b) == PairScore(a, b)
  {
    var v := Sort(a + b);
    SortHasSameElements(a + b);
    ToleranceShiftsCount(a, b);
    ApartNoMergedPairs(v, a, b, true);
    ApartNoMergedPairs(v, a, b, false);
  }

  /** The tolerance changes no value at all exactly when no two values, of whichever samples,
      lie closer than TIE_EPS without being equal; in particular u1 is then the pair count. */
  lemma {:induction false} SeparatedCountsPairs(a: seq<real>, b: seq<real>)
    ensures Separated(a + b) <==> Quantize(Sort(a + b), a + b) == a + b
    ensures Separated(a + b) ==> TwiceU1(a, b) == PairScore(a, b)
  {
    OwnLeadersAnyOrder(a + b);
    if Separated(a + b) {
      ApartCountsPairs(a, b) by { SeparatedIsApart(a, b); }
    }
  }

  lemma SeparatedIsApart(a: seq<real>, b: seq<real>)
    requires Separated(a + b)
    ensures Apart(a, b)
  {
    forall x, y | x in a && y in b ensures x == y || x - y >= TIE_EPS || y - x >= TIE_EPS {
      assert x in a + b && y in a + b;
    }
  }

  lemma {:induction false} OwnLeadersAnyOrder(s: seq<real>)
    ensures Separated(s) <==> Quantize(Sort(s), s) == s
  {
    var v := Sort(s);
    SortHasSameElements(s);
    SeparatedIffOwnLeaders(v);
    if Leaders(v) == v {
      forall i | 0 <= i < |s| ensures LeaderOf(v, s[i]) == s[i] {
        var k := IndexOf(v, s[i]);
        LeaderOfAt(v, k);
        assert Leaders(v)[k] == v[k];
      }
    }
    if Quantize(v, s) == s {
      forall k | 0 <= k < |v| ensures Leader(v, k) == v[k] {
        var i := IndexOf(s, v[k]);
        assert Quantize(v, s)[i] == s[i];
        LeaderOfAt(v, k);
      }
      assert Leaders(v) == v;
    }
  }

  lemma WithinOneRun(v: seq<real>)
    requires v != [] && forall x :: x in v ==> 0.0 <= x <= TIE_EPS / 2.0
    ensures OneRun(v)
  {
    assert v[0] in v && v[|v| - 1] in v;
  }

  /** Without separation the count is off: b exceeds a by half the tolerance everywhere, so
      all four pairs should be wins (8 points), and the test sees four ties. */
  lemma ToleranceMergesDistinctSamples()
    ensures var a, b := [0.0, 0.0], [TIE_EPS / 2.0, TIE_EPS / 2.0];
            TwiceU1(a, b) == 4 && PairScore(a, b) == 8
  {
    var a, b := [0.0, 0.0], [TIE_EPS / 2.0, TIE_EPS / 2.0];
    OneRunAllTied(a, b) by {
      SortHasSameElements(a + b);
      WithinOneRun(Sort(a + b));
    }
    assert b == [TIE_EPS / 2.0] + [TIE_EPS / 2.0];
    PairScoreOneMore(a, [TIE_EPS / 2.0], TIE_EPS / 2.0);
    PairScoreOneMore(a, [], TIE_EPS / 2.0);
    WinsOfRun(a, 2, 2, TIE_EPS / 2.0);
  }
}
