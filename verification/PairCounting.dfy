/** Pair counting: the independent definition of the Mann-Whitney statistic.
    Everything is doubled so that half points stay integral: a pair scores 2 when the
    left value is smaller, 1 on a tie and 0 otherwise. */
module PairCounting {
  function Score(x: real, y: real): (r: nat)
    ensures r + (if y < x then 2 else if y == x then 1 else 0) == 2
  {
    if x < y then 2 else if x == y then 1 else 0
  }

  /** The points that the values of `s` score against `v`. */
  function Wins(s: seq<real>, v: real): nat {
    if s == [] then 0 else Score(s[0], v) + Wins(s[1..], v)
  }

  /** Twice (#{a < b} + 1/2 #{a == b}) over all pairs of `a` x `b`. */
  function PairScore(a: seq<real>, b: seq<real>): nat {
    if b == [] then 0 else Wins(a, b[0]) + PairScore(a, b[1..])
  }

  lemma {:induction false} WinsAppend(s: seq<real>, t: seq<real>, v: real)
    ensures Wins(s + t, v) == Wins(s, v) + Wins(t, v)
  {
    if s == [] {
      assert s + t == t;
    } else {
      WinsAppend(s[1..], t, v);
      assert (s + t)[1..] == s[1..] + t;
    }
  }

  lemma {:induction false} PairScoreAppendRight(a: seq<real>, s: seq<real>, t: seq<real>)
    ensures PairScore(a, s + t) == PairScore(a, s) + PairScore(a, t)
  {
    if s == [] {
      assert s + t == t;
    } else {
      PairScoreAppendRight(a, s[1..], t);
      assert (s + t)[1..] == s[1..] + t;
    }
  }

  lemma {:induction false} PairScoreOneMore(a: seq<real>, s: seq<real>, x: real)
    ensures PairScore(a, s + [x]) == PairScore(a, s) + Wins(a, x)
  {
    PairScoreAppendRight(a, s, [x]);
    assert [x][1..] == [];
  }

  lemma {:induction false} PairScoreAppendLeft(s: seq<real>, t: seq<real>, b: seq<real>)
    ensures PairScore(s + t, b) == PairScore(s, b) + PairScore(t, b)
  {
    if b != [] {
      PairScoreAppendLeft(s, t, b[1..]);
      WinsAppend(s, t, b[0]);
    }
  }

  /** One value against a whole sequence, both ways round: two points a pair. */
  lemma {:induction false} WinsBothWays(x: real, b: seq<real>)
    ensures Wins(b, x) + PairScore([x], b) == 2 * |b|
  {
    if b != [] {
      WinsBothWays(x, b[1..]);
      assert [x][1..] == [];
      assert Wins([x], b[0]) == Score(x, b[0]);
    }
  }

  /** Conservation: the two directions share two points a pair. */
  lemma {:induction false} PairScoreConserved(a: seq<real>, b: seq<real>)
    ensures PairScore(a, b) + PairScore(b, a) == 2 * |a| * |b|
  {
    if a == [] {
      NoLeftNoPoints(b);
    } else {
      PairScoreConserved(a[1..], b);
      PairScoreAppendLeft([a[0]], a[1..], b);
      assert a == [a[0]] + a[1..];
      WinsBothWays(a[0], b);
      assert 2 * |a| * |b| == 2 * |a[1..]| * |b| + 2 * |b|;
    }
  }

  lemma {:induction false} NoLeftNoPoints(b: seq<real>)
    ensures PairScore([], b) == 0
  {
    if b != [] {
      NoLeftNoPoints(b[1..]);
    }
  }

  lemma {:induction false} WinsPermutation(s: seq<real>, t: seq<real>, v: real)
    requires multiset(s) == multiset(t)
    ensures Wins(s, v) == Wins(t, v)
  {
    if s == [] {
      assert |multiset(t)| == 0;
      assert t == [];
    } else {
      var i := IndexOf(t, s[0]) by { assert s[0] in multiset(t); }
      RemoveAt(s, t, i);
      WinsPermutation(s[1..], t[..i] + t[i + 1..], v);
      WinsAppend(t[..i], t[i + 1..], v);
      WinsAppend(t[..i], [t[i]] + t[i + 1..], v);
      assert t == t[..i] + ([t[i]] + t[i + 1..]);
      assert ([t[i]] + t[i + 1..])[1..] == t[i + 1..];
    }
  }

  lemma IndexOf(t: seq<real>, x: real) returns (i: nat)
    requires x in t
    ensures i < |t| && t[i] == x
  {
    i :| i < |t| && t[i] == x;
  }

  lemma RemoveAt(s: seq<real>, t: seq<real>, i: nat)
    requires s != [] && multiset(s) == multiset(t) && i < |t| && t[i] == s[0]
    ensures multiset(s[1..]) == multiset(t[..i] + t[i + 1..])
  {
    assert s == [s[0]] + s[1..];
    assert t == t[..i] + [t[i]] + t[i + 1..];
    assert multiset(s[1..]) == multiset(s) - multiset{s[0]};
    assert multiset(t[..i] + t[i + 1..]) == multiset(t) - multiset{t[i]};
  }

  /** The score depends only on which values each side holds, not on their order. */
  lemma {:induction false} PairScorePermutation(a: seq<real>, b: seq<real>, a': seq<real>, b': seq<real>)
    requires multiset(a) == multiset(a') && multiset(b) == multiset(b')
    ensures PairScore(a, b) == PairScore(a', b')
    decreases |b|
  {
    if b == [] {
      assert |multiset(b')| == 0;
      assert b' == [];
    } else {
      var i := IndexOf(b', b[0]) by { assert b[0] in multiset(b'); }
      RemoveAt(b, b', i);
      PairScorePermutation(a, b[1..], a', b'[..i] + b'[i + 1..]);
      WinsPermutation(a, a', b[0]);
      PairScoreAppendRight(a', b'[..i], b'[i + 1..]);
      PairScoreAppendRight(a', b'[..i], [b'[i]] + b'[i + 1..]);
      assert b' == b'[..i] + ([b'[i]] + b'[i + 1..]);
      assert ([b'[i]] + b'[i + 1..])[1..] == b'[i + 1..];
    }
  }

  /** Values split into smaller, equal and larger blocks score `lo + hi` against the middle. */
  lemma {:induction false} WinsOfRun(s: seq<real>, lo: nat, hi: nat, v: real)
    requires lo <= hi <= |s|
    requires forall k :: 0 <= k < lo ==> s[k] < v
    requires forall k :: lo <= k < hi ==> s[k] == v
    requires forall k :: hi <= k < |s| ==> s[k] > v
    ensures Wins(s, v) == lo + hi
  {
    if s != [] {
      var t := s[1..];
      assert forall k :: 0 <= k < |t| ==> t[k] == s[k + 1];
      WinsOfRun(t, if lo == 0 then 0 else lo - 1, if hi == 0 then 0 else hi - 1, v);
    }
  }

  /** All values equal: every pair is a tie. */
  lemma {:induction false} PairScoreAllTied(a: seq<real>, b: seq<real>, v: real)
    requires forall x :: x in a ==> x == v
    requires forall x :: x in b ==> x == v
    ensures PairScore(a, b) == |a| * |b|
  {
    if b != [] {
      assert b[0] in b;
      WinsOfRun(a, 0, |a|, b[0]) by {
        forall k | 0 <= k < |a| ensures a[k] == b[0] { assert a[k] in a; }
      }
      assert forall x :: x in b[1..] ==> x in b;
      PairScoreAllTied(a, b[1..], v);
      TimesOneMore(|a|, |b[1..]|);
    }
  }

  lemma TimesOneMore(m: nat, n: nat)
    ensures m * (n + 1) == m * n + m
  {
  }
}
