/** Processor topology: the variable-length records of the operating system, and the choice of
    performance cores and their affinity mask. */
module CpuTopology {
  import opened Options

  // ----- bits -----

  function Bit(m: nat, i: nat): bool {
    if i == 0 then m % 2 == 1 else Bit(m / 2, i - 1)
  }

  function BitOr(a: nat, b: nat): nat
    decreases a + b
  {
    if a == 0 then b else if b == 0 then a
    else (if a % 2 == 1 || b % 2 == 1 then 1 else 0) + 2 * BitOr(a / 2, b / 2)
  }

  function CountOnes(m: nat): nat {
    if m == 0 then 0 else m % 2 + CountOnes(m / 2)
  }

  ghost predicate Disjoint(a: nat, b: nat) {
    forall i: nat :: !(Bit(a, i) && Bit(b, i))
  }

  lemma {:induction false} ZeroHasNoBit(i: nat)
    ensures !Bit(0, i)
  {
    if i > 0 {
      ZeroHasNoBit(i - 1);
    }
  }

  lemma {:induction false} BitOrBit(a: nat, b: nat, i: nat)
    ensures Bit(BitOr(a, b), i) <==> Bit(a, i) || Bit(b, i)
    decreases a + b
  {
    if a == 0 || b == 0 {
      ZeroHasNoBit(i);
    } else {
      var low, high := if a % 2 == 1 || b % 2 == 1 then 1 else 0, BitOr(a / 2, b / 2);
      assert (low + 2 * high) % 2 == low && (low + 2 * high) / 2 == high;
      if i > 0 {
        BitOrBit(a / 2, b / 2, i - 1);
      }
    }
  }

  lemma DisjointHalves(a: nat, b: nat)
    requires Disjoint(a, b)
    ensures Disjoint(a / 2, b / 2) && !(a % 2 == 1 && b % 2 == 1)
  {
    forall i: nat ensures !(Bit(a / 2, i) && Bit(b / 2, i)) {
      assert Bit(a, i + 1) == Bit(a / 2, i) && Bit(b, i + 1) == Bit(b / 2, i);
    }
    assert Bit(a, 0) == (a % 2 == 1) && Bit(b, 0) == (b % 2 == 1);
  }

  lemma {:induction false} DisjointCounts(a: nat, b: nat)
    requires Disjoint(a, b)
    ensures CountOnes(BitOr(a, b)) == CountOnes(a) + CountOnes(b)
    decreases a + b
  {
    if a != 0 && b != 0 {
      DisjointHalves(a, b);
      DisjointCounts(a / 2, b / 2);
      CountOfHalves(if a % 2 == 1 || b % 2 == 1 then 1 else 0, BitOr(a / 2, b / 2));
    }
  }

  lemma {:induction false} CountOfHalves(low: nat, high: nat)
    requires low < 2
    ensures CountOnes(low + 2 * high) == low + CountOnes(high)
  {
    assert (low + 2 * high) % 2 == low && (low + 2 * high) / 2 == high;
  }

  /** A mask is its bits. */
  lemma {:induction false} BitsDetermine(a: nat, b: nat)
    requires forall i: nat :: Bit(a, i) == Bit(b, i)
    ensures a == b
    decreases a + b
  {
    assert Bit(a, 0) == Bit(b, 0);
    if a != 0 || b != 0 {
      forall i: nat ensures Bit(a / 2, i) == Bit(b / 2, i) {
        assert Bit(a, i + 1) == Bit(b, i + 1);
      }
      BitsDetermine(a / 2, b / 2);
    }
  }

  /** The positions of the bits of a mask below `n`. */
  ghost function Positions(m: nat, n: nat): set<nat> {
    set i: nat | i < n && Bit(m, i)
  }

  function Pow2(n: nat): nat {
    if n == 0 then 1 else 2 * Pow2(n - 1)
  }

  /** The popcount is the number of positions that hold a bit. */
  lemma {:induction false} CountOnesIsPositions(m: nat, n: nat)
    requires m < Pow2(n)
    ensures CountOnes(m) == |Positions(m, n)|
  {
    if n == 0 {
      assert Positions(m, n) == {};
    } else {
      CountOnesIsPositions(m / 2, n - 1);
      ShiftedPositions(m, n);
      CountOfHalves(m % 2, m / 2);
    }
  }

  lemma {:induction false} ShiftedPositions(m: nat, n: nat)
    requires n > 0
    ensures |Positions(m, n)| == |Positions(m / 2, n - 1)| + m % 2
  {
    var high := Positions(m / 2, n - 1);
    var up := set i | i in high :: i + 1;
    SameSize(high, up);
    PositionsSplit(m, n, high, up);
    assert 0 !in up;
  }

  lemma {:induction false} PositionsSplit(m: nat, n: nat, high: set<nat>, up: set<nat>)
    requires n > 0 && high == Positions(m / 2, n - 1) && up == set i | i in high :: i + 1
    ensures m % 2 == 1 ==> Positions(m, n) == {0} + up
    ensures m % 2 == 0 ==> Positions(m, n) == up
  {
    forall i: nat | i > 0 ensures i in Positions(m, n) <==> i in up {
      assert Bit(m, i) == Bit(m / 2, i - 1);
      if i in Positions(m, n) {
        assert i - 1 in high;
      }
    }
    assert 0 in Positions(m, n) <==> m % 2 == 1;
    assert 0 !in up;
  }

  lemma {:induction false} SameSize(s: set<nat>, up: set<nat>)
    requires up == set i | i in s :: i + 1
    ensures |up| == |s|
  {
    if s != {} {
      var x :| x in s;
      var rest := s - {x};
      var upRest := set i | i in rest :: i + 1;
      SameSize(rest, upRest);
      assert up == upRest + {x + 1} by {
        forall y ensures y in up <==> y in upRest + {x + 1} {
          if y in up {
            var i :| i in s && y == i + 1;
            assert i in rest || i == x;
          }
          assert y == x + 1 ==> y in up;
        }
      }
    } else {
      assert up == {};
    }
  }

  /** The union of masks, as the mask loop accumulates it. */
  function OrAll(masks: seq<nat>): nat {
    if masks == [] then 0 else BitOr(OrAll(masks[..|masks| - 1]), masks[|masks| - 1])
  }

  function SumOnes(masks: seq<nat>): nat {
    if masks == [] then 0 else SumOnes(masks[..|masks| - 1]) + CountOnes(masks[|masks| - 1])
  }

  lemma {:induction false} OrAllBit(masks: seq<nat>, i: nat)
    ensures Bit(OrAll(masks), i) <==> exists k :: 0 <= k < |masks| && Bit(masks[k], i)
  {
    if masks == [] {
      ZeroHasNoBit(i);
    } else {
      var init, last := masks[..|masks| - 1], masks[|masks| - 1];
      OrAllBit(init, i);
      BitOrBit(OrAll(init), last, i);
      if Bit(OrAll(init), i) {
        var k :| 0 <= k < |init| && Bit(init[k], i);
        assert masks[k] == init[k];
      }
      if k :| 0 <= k < |masks| && Bit(masks[k], i) {
        assert k < |init| ==> init[k] == masks[k];
      }
    }
  }

  ghost predicate PairwiseDisjoint(masks: seq<nat>) {
    forall j, k :: 0 <= j < k < |masks| ==> Disjoint(masks[j], masks[k])
  }

  lemma {:induction false} OrAllCounts(masks: seq<nat>)
    requires PairwiseDisjoint(masks)
    ensures CountOnes(OrAll(masks)) == SumOnes(masks)
  {
    if masks != [] {
      var init, last := masks[..|masks| - 1], masks[|masks| - 1];
      OrAllCounts(init);
      forall i: nat ensures !(Bit(OrAll(init), i) && Bit(last, i)) {
        OrAllBit(init, i);
        if k :| 0 <= k < |init| && Bit(init[k], i) {
          assert Disjoint(masks[k], masks[|masks| - 1]);
        }
      }
      DisjointCounts(OrAll(init), last);
    }
  }

  // ----- evaluation -----

  datatype GroupMask = GroupMask(group: nat, mask: nat)

  datatype Core = Core(efficiencyClass: nat, hasSmt: bool, logicalCores: nat, groups: seq<GroupMask>)

  datatype Topology = Topology(physical: nat, logical: nat, performance: nat, efficient: nat,
                               hasSmt: bool, isHybrid: bool, mask: Option<nat>)

  function SumLogical(cores: seq<Core>): nat {
    if cores == [] then 0 else SumLogical(cores[..|cores| - 1]) + cores[|cores| - 1].logicalCores
  }

  function CountClass(cores: seq<Core>, class_: nat): nat {
    if cores == [] then 0
    else CountClass(cores[..|cores| - 1], class_) + if cores[|cores| - 1].efficiencyClass == class_ then 1 else 0
  }

  function CountBelow(cores: seq<Core>, class_: nat): nat {
    if cores == [] then 0
    else CountBelow(cores[..|cores| - 1], class_) + if cores[|cores| - 1].efficiencyClass < class_ then 1 else 0
  }

  /** The masks of group 0 among a core's groups, and among the cores of a class. */
  function GroupZero(groups: seq<GroupMask>): seq<nat> {
    if groups == [] then []
    else
      var last := groups[|groups| - 1];
      GroupZero(groups[..|groups| - 1]) + if last.group == 0 then [last.mask] else []
  }

  function ClassMasks(cores: seq<Core>, class_: nat): seq<nat> {
    if cores == [] then []
    else
      var last := cores[|cores| - 1];
      ClassMasks(cores[..|cores| - 1], class_) + if last.efficiencyClass == class_ then GroupZero(last.groups) else []
  }

  ghost predicate IsMaxClass(cores: seq<Core>, c: nat) {
    (exists k :: 0 <= k < |cores| && cores[k].efficiencyClass == c)
    && forall k :: 0 <= k < |cores| ==> cores[k].efficiencyClass <= c
  }

  ghost predicate IsMinClass(cores: seq<Core>, c: nat) {
    (exists k :: 0 <= k < |cores| && cores[k].efficiencyClass == c)
    && forall k :: 0 <= k < |cores| ==> c <= cores[k].efficiencyClass
  }

  /** The first loop: totals, SMT and the extreme efficiency classes. */
  method Survey(cores: seq<Core>) returns (logical: nat, hasSmt: bool, minClass: nat, maxClass: nat)
    requires cores != [] && forall k :: 0 <= k < |cores| ==> cores[k].efficiencyClass <= 255
    ensures logical == SumLogical(cores)
    ensures hasSmt <==> exists k :: 0 <= k < |cores| && cores[k].hasSmt
    ensures IsMinClass(cores, minClass) && IsMaxClass(cores, maxClass)
  {
    logical, hasSmt, minClass, maxClass := 0, false, 255, 0;
    for i := 0 to |cores|
      invariant logical == SumLogical(cores[..i])
      invariant hasSmt <==> exists k :: 0 <= k < i && cores[k].hasSmt
      invariant forall k :: 0 <= k < i ==> minClass <= cores[k].efficiencyClass <= maxClass
      invariant minClass <= 255
      invariant i > 0 ==> exists k :: 0 <= k < i && cores[k].efficiencyClass == minClass
      invariant i > 0 ==> exists k :: 0 <= k < i && cores[k].efficiencyClass == maxClass
      invariant i == 0 ==> minClass == 255 && maxClass == 0
    {
      var c := cores[i];
      assert cores[..i + 1][..i] == cores[..i];
      logical := logical + c.logicalCores;
      if c.hasSmt {
        hasSmt := true;
      }
      if c.efficiencyClass < minClass {
        minClass := c.efficiencyClass;
      }
      if c.efficiencyClass > maxClass {
        maxClass := c.efficiencyClass;
      }
      assert cores[i].efficiencyClass == c.efficiencyClass;
    }
    assert cores[..|cores|] == cores;
  }

  /** The mask loops over the performance cores and their groups. */
  method AffinityMask(cores: seq<Core>, class_: nat) returns (mask: nat)
    ensures mask == OrAll(ClassMasks(cores, class_))
  {
    mask := 0;
    for i := 0 to |cores|
      invariant mask == OrAll(ClassMasks(cores[..i], class_))
    {
      assert cores[..i + 1][..i] == cores[..i];
      var c := cores[i];
      if c.efficiencyClass == class_ {
        mask := AddGroups(c.groups, mask, ClassMasks(cores[..i], class_));
      } else {
        assert ClassMasks(cores[..i], class_) + [] == ClassMasks(cores[..i], class_);
      }
    }
    assert cores[..|cores|] == cores;
  }

  method AddGroups(groups: seq<GroupMask>, start: nat, ghost before: seq<nat>) returns (mask: nat)
    requires start == OrAll(before)
    ensures mask == OrAll(before + GroupZero(groups))
  {
    mask := start;
    assert before + [] == before;
    for j := 0 to |groups|
      invariant mask == OrAll(before + GroupZero(groups[..j]))
    {
      assert groups[..j + 1][..j] == groups[..j];
      ghost var sofar := before + GroupZero(groups[..j]);
      if groups[j].group == 0 {
        assert (sofar + [groups[j].mask])[..|sofar|] == sofar;
        assert before + GroupZero(groups[..j + 1]) == sofar + [groups[j].mask];
        mask := BitOr(mask, groups[j].mask);
      } else {
        assert before + GroupZero(groups[..j + 1]) == sofar;
      }
    }
    assert groups[..|groups|] == groups;
  }

  /** The largest class among the cores, as a function. */
  ghost function MaxClass(cores: seq<Core>): nat {
    if cores == [] then 0
    else
      var m := MaxClass(cores[..|cores| - 1]);
      if cores[|cores| - 1].efficiencyClass > m then cores[|cores| - 1].efficiencyClass else m
  }

  lemma {:induction false} MaxClassIsMax(cores: seq<Core>, c: nat)
    requires IsMaxClass(cores, c)
    ensures c == MaxClass(cores)
  {
    MaxClassBounds(cores);
    var k :| 0 <= k < |cores| && cores[k].efficiencyClass == c;
  }

  lemma {:induction false} MaxClassBounds(cores: seq<Core>)
    ensures forall k :: 0 <= k < |cores| ==> cores[k].efficiencyClass <= MaxClass(cores)
    ensures cores != [] ==> exists k :: 0 <= k < |cores| && cores[k].efficiencyClass == MaxClass(cores)
  {
    if cores != [] {
      var init := cores[..|cores| - 1];
      MaxClassBounds(init);
      assert forall k :: 0 <= k < |init| ==> init[k] == cores[k];
      if init != [] {
        var k :| 0 <= k < |init| && init[k].efficiencyClass == MaxClass(init);
        assert cores[k].efficiencyClass == MaxClass(init);
      }
      assert cores[|cores| - 1].efficiencyClass <= MaxClass(cores);
    }
  }

  /** Two cores of different classes. */
  ghost predicate Hybrid(cores: seq<Core>) {
    exists i, j :: 0 <= i < |cores| && 0 <= j < |cores| && cores[i].efficiencyClass < cores[j].efficiencyClass
  }

  method EvaluateTopology(cores: seq<Core>) returns (t: Topology)
    requires forall k :: 0 <= k < |cores| ==> cores[k].efficiencyClass <= 255
    ensures t.physical == |cores| && t.logical == SumLogical(cores)
    ensures t.hasSmt <==> exists k :: 0 <= k < |cores| && cores[k].hasSmt
    ensures t.isHybrid <==> Hybrid(cores)
    ensures t.performance + t.efficient == t.physical
    ensures t.isHybrid ==>
              && t.performance == CountClass(cores, MaxClass(cores))
              && t.efficient == CountBelow(cores, MaxClass(cores))
    ensures !t.isHybrid ==> t.efficient == 0 && t.mask.None?
    ensures t.isHybrid ==>
              t.mask == var m := OrAll(ClassMasks(cores, MaxClass(cores))); if m != 0 then Some(m) else None
  {
    if cores == [] {
      return Topology(0, 0, 0, 0, false, false, None);
    }
    var logical, hasSmt, minClass, maxClass := Survey(cores);
    MaxClassIsMax(cores, maxClass);
    HybridIff(cores, minClass, maxClass);
    if maxClass > minClass {
      var performance, efficient := CountClass(cores, maxClass), CountBelow(cores, maxClass);
      CountsSplit(cores, maxClass);
      var mask := AffinityMask(cores, maxClass);
      t := Topology(|cores|, logical, performance, efficient, hasSmt, true, if mask != 0 then Some(mask) else None);
    } else {
      t := Topology(|cores|, logical, |cores|, 0, hasSmt, false, None);
    }
  }

  lemma HybridIff(cores: seq<Core>, minClass: nat, maxClass: nat)
    requires IsMinClass(cores, minClass) && IsMaxClass(cores, maxClass)
    ensures Hybrid(cores) <==> minClass < maxClass
  {
    var i :| 0 <= i < |cores| && cores[i].efficiencyClass == minClass;
    var j :| 0 <= j < |cores| && cores[j].efficiencyClass == maxClass;
    if minClass < maxClass {
      assert cores[i].efficiencyClass < cores[j].efficiencyClass;
    }
  }

  lemma {:induction false} CountsSplit(cores: seq<Core>, c: nat)
    requires forall k :: 0 <= k < |cores| ==> cores[k].efficiencyClass <= c
    ensures CountClass(cores, c) + CountBelow(cores, c) == |cores|
  {
    if cores != [] {
      CountsSplit(cores[..|cores| - 1], c);
    }
  }

  /** The core owns the logical processor: one of its group-0 masks has the bit. */
  ghost predicate Owns(c: Core, i: nat) {
    exists g :: 0 <= g < |c.groups| && c.groups[g].group == 0 && Bit(c.groups[g].mask, i)
  }

  lemma {:induction false} GroupZeroBit(groups: seq<GroupMask>, i: nat)
    ensures (exists k :: 0 <= k < |GroupZero(groups)| && Bit(GroupZero(groups)[k], i))
            <==> exists g :: 0 <= g < |groups| && groups[g].group == 0 && Bit(groups[g].mask, i)
  {
    if groups != [] {
      var init, last := groups[..|groups| - 1], groups[|groups| - 1];
      GroupZeroBit(init, i);
      var all, before := GroupZero(groups), GroupZero(init);
      if k :| 0 <= k < |all| && Bit(all[k], i) {
        if k < |before| {
          assert before[k] == all[k];
          var g :| 0 <= g < |init| && init[g].group == 0 && Bit(init[g].mask, i);
          assert groups[g] == init[g];
        }
      }
      if g :| 0 <= g < |groups| && groups[g].group == 0 && Bit(groups[g].mask, i) {
        if g < |init| {
          assert init[g] == groups[g];
          var k :| 0 <= k < |before| && Bit(before[k], i);
          assert all[k] == before[k];
        } else {
          assert all[|before|] == last.mask;
        }
      }
    }
  }

  /** A bit is in the union of a class's masks exactly when a core of the class owns it. */
  lemma {:induction false} ClassMaskBit(cores: seq<Core>, c: nat, i: nat)
    ensures Bit(OrAll(ClassMasks(cores, c)), i)
            <==> exists k :: 0 <= k < |cores| && cores[k].efficiencyClass == c && Owns(cores[k], i)
  {
    OrAllBit(ClassMasks(cores, c), i);
    ClassMasksBit(cores, c, i);
  }

  lemma {:induction false} ClassMasksBit(cores: seq<Core>, c: nat, i: nat)
    ensures (exists m :: 0 <= m < |ClassMasks(cores, c)| && Bit(ClassMasks(cores, c)[m], i))
            <==> exists k :: 0 <= k < |cores| && cores[k].efficiencyClass == c && Owns(cores[k], i)
  {
    if cores != [] {
      var init, last := cores[..|cores| - 1], cores[|cores| - 1];
      ClassMasksBit(init, c, i);
      GroupZeroBit(last.groups, i);
      var all, before, own := ClassMasks(cores, c), ClassMasks(init, c), GroupZero(last.groups);
      if m :| 0 <= m < |all| && Bit(all[m], i) {
        if m < |before| {
          assert before[m] == all[m];
          var k :| 0 <= k < |init| && init[k].efficiencyClass == c && Owns(init[k], i);
          assert cores[k] == init[k];
        } else {
          assert own[m - |before|] == all[m];
          assert Owns(cores[|cores| - 1], i);
        }
      }
      if k :| 0 <= k < |cores| && cores[k].efficiencyClass == c && Owns(cores[k], i) {
        if k < |init| {
          assert init[k] == cores[k];
          var m :| 0 <= m < |before| && Bit(before[m], i);
          assert all[m] == before[m];
        } else {
          var m :| 0 <= m < |own| && Bit(own[m], i);
          assert all[|before| + m] == own[m];
        }
      }
    }
  }

  /** No two cores own the same logical processor of group 0. */
  ghost predicate OwnersDistinct(cores: seq<Core>) {
    forall j, k, i: nat :: 0 <= j < k < |cores| ==> !(Owns(cores[j], i) && Owns(cores[k], i))
  }

  /** The affinity mask has a bit exactly where a core of the highest class owns it, so when
      cores share no processor it contains no bit of any other core. */
  lemma {:induction false} AffinityMaskExact(cores: seq<Core>, i: nat)
    ensures var mask := OrAll(ClassMasks(cores, MaxClass(cores)));
            && (Bit(mask, i) <==>
                  exists k :: 0 <= k < |cores| && cores[k].efficiencyClass == MaxClass(cores) && Owns(cores[k], i))
            && (OwnersDistinct(cores) ==>
                  forall k :: 0 <= k < |cores| && cores[k].efficiencyClass < MaxClass(cores) && Owns(cores[k], i) ==>
                    !Bit(mask, i))
  {
    ClassMaskBit(cores, MaxClass(cores), i);
  }

  /** With pairwise disjoint masks the affinity mask has as many bits as its parts together. */
  lemma {:induction false} AffinityMaskCount(cores: seq<Core>)
    requires PairwiseDisjoint(ClassMasks(cores, MaxClass(cores)))
    ensures CountOnes(OrAll(ClassMasks(cores, MaxClass(cores)))) == SumOnes(ClassMasks(cores, MaxClass(cores)))
  {
    OrAllCounts(ClassMasks(cores, MaxClass(cores)));
  }
}
