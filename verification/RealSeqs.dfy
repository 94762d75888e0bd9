/** Sequences of reals: sums, ordering and the ascending sort used by the statistics engine.
    Every `f64` of the engine is modelled as an exact `real`. */
module RealSeqs {
  import opened RealArith

  function Sum(s: seq<real>): real {
    if s == [] then 0.0 else s[0] + Sum(s[1..])
  }

  function Mean(s: seq<real>): real
    requires s != []
  {
    Sum(s) / |s| as real
  }

  function SquaredDeviations(s: seq<real>, mean: real): (r: real)
    ensures r >= 0.0
  {
    if s == [] then 0.0 else Square(s[0] - mean) + SquaredDeviations(s[1..], mean)
  }

  ghost predicate Sorted(s: seq<real>) {
    forall i, j :: 0 <= i < j < |s| ==> s[i] <= s[j]
  }

  function Insert(x: real, s: seq<real>): (r: seq<real>)
    ensures multiset(r) == multiset{x} + multiset(s)
  {
    if s == [] || x <= s[0] then
      [x] + s
    else
      assert s == [s[0]] + s[1..];
      [s[0]] + Insert(x, s[1..])
  }

  lemma {:induction false} InsertKeepsSorted(x: real, s: seq<real>)
    requires Sorted(s)
    ensures Sorted(Insert(x, s))
  {
    if s != [] && s[0] < x {
      var t := Insert(x, s[1..]);
      InsertKeepsSorted(x, s[1..]);
      PrependKeepsSorted(s[0], t) by {
        forall k | 0 <= k < |t| ensures s[0] <= t[k] {
          assert t[k] in multiset(t);
        }
      }
    } else {
      PrependKeepsSorted(x, s);
    }
  }

  lemma PrependKeepsSorted(x: real, s: seq<real>)
    requires Sorted(s)
    requires forall k :: 0 <= k < |s| ==> x <= s[k]
    ensures Sorted([x] + s)
  {
  }

  /** The engine's `sort_by(partial_cmp)`: an ascending permutation of its input. */
  function Sort(s: seq<real>): (r: seq<real>)
    ensures Sorted(r)
    ensures multiset(r) == multiset(s)
    ensures |r| == |s|
  {
    if s == [] then
      []
    else
      var t := Sort(s[1..]);
      InsertKeepsSorted(s[0], t);
      assert s == [s[0]] + s[1..];
      assert |Insert(s[0], t)| == |multiset(Insert(s[0], t))|;
      Insert(s[0], t)
  }

  lemma {:induction false} SortHasSameElements(s: seq<real>)
    ensures forall x :: x in Sort(s) <==> x in s
  {
    forall x ensures x in Sort(s) <==> x in s {
      assert x in multiset(Sort(s)) <==> x in multiset(s);
    }
  }

  lemma {:induction false} SumInsert(x: real, s: seq<real>)
    ensures Sum(Insert(x, s)) == x + Sum(s)
  {
    if s == [] || x <= s[0] {
      assert ([x] + s)[1..] == s;
    } else {
      SumInsert(x, s[1..]);
      var t := Insert(x, s[1..]);
      assert ([s[0]] + t)[1..] == t;
    }
  }

  /** Sorting conserves the sum. */
  lemma {:induction false} SumSort(s: seq<real>)
    ensures Sum(Sort(s)) == Sum(s)
  {
    if s != [] {
      SumSort(s[1..]);
      SumInsert(s[0], Sort(s[1..]));
    }
  }

  lemma {:induction false} SumAppend(s: seq<real>, t: seq<real>)
    ensures Sum(s + t) == Sum(s) + Sum(t)
  {
    if s == [] {
      assert s + t == t;
    } else {
      SumAppend(s[1..], t);
      assert (s + t)[1..] == s[1..] + t;
    }
  }

  /** A sum of values that all lie in [lo, hi] lies in [n*lo, n*hi]. */
  lemma {:induction false} SumBetween(s: seq<real>, lo: real, hi: real)
    requires forall x :: x in s ==> lo <= x <= hi
    ensures |s| as real * lo <= Sum(s) <= |s| as real * hi
  {
    if s != [] {
      assert s[0] in s;
      assert forall x :: x in s[1..] ==> x in s;
      SumBetween(s[1..], lo, hi);
      assert |s| as real == |s[1..]| as real + 1.0;
      assert |s| as real * lo == |s[1..]| as real * lo + lo;
      assert |s| as real * hi == |s[1..]| as real * hi + hi;
    }
  }

  /** Two ascending permutations of the same values are the same sequence. */
  lemma {:induction false} SortedIsUnique(s: seq<real>, t: seq<real>)
    requires Sorted(s) && Sorted(t) && multiset(s) == multiset(t)
    ensures s == t
  {
    assert |s| == |multiset(s)| == |multiset(t)| == |t|;
    if s != [] {
      assert s[0] in multiset(t) && t[0] in multiset(s);
      assert s[0] == t[0];
      assert s == [s[0]] + s[1..];
      assert t == [t[0]] + t[1..];
      SortedIsUnique(s[1..], t[1..]) by {
        assert multiset(s[1..]) == multiset(s) - multiset{s[0]};
        assert multiset(t[1..]) == multiset(t) - multiset{t[0]};
      }
    }
  }
}
