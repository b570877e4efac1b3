/** Optional values, used where the source computes NaN or leaves a name unbound. */
module Wrappers {

  datatype Option<+T> = None | Some(value: T)
}

/**
 The small amount of statistics the detection stage needs: sums, means,
 population variance (numpy's `var`), maxima, and the facts about them that
 the scoring rule relies on.
 */
module Stats {
  import opened Wrappers

  /** Sum of a sequence, accumulated from the left. */
  function Sum(s: seq<real>): real
  {
    if |s| == 0 then 0.0 else Sum(s[..|s| - 1]) + s[|s| - 1]
  }

  /** Arithmetic mean of a non-empty sequence. */
  function Mean(s: seq<real>): real
    requires |s| > 0
  {
    Sum(s) / (|s| as real)
  }

  /** Applies `f` to every element of `s`. */
  function MapSeq<T>(s: seq<T>, f: T -> real): (r: seq<real>)
    ensures |r| == |s|
    ensures forall i :: 0 <= i < |s| ==> r[i] == f(s[i])
  {
    seq(|s|, i requires 0 <= i < |s| => f(s[i]))
  }

  /** Squared deviations of every sample from the mean. */
  function SquaredDeviations(s: seq<real>, mu: real): (r: seq<real>)
    ensures |r| == |s|
    ensures forall i :: 0 <= i < |s| ==> r[i] == (s[i] - mu) * (s[i] - mu)
  {
    seq(|s|, i requires 0 <= i < |s| => (s[i] - mu) * (s[i] - mu))
  }

  /** Population variance (numpy's default, ddof = 0); None stands for the NaN numpy returns on an empty array. */
  function Variance(s: seq<real>): (v: Option<real>)
    ensures v.None? <==> |s| == 0
  {
    if |s| == 0 then None else Some(Mean(SquaredDeviations(s, Mean(s))))
  }

  /** Largest element of a non-empty sequence (Python's `max` on a list). */
  function MaxOf(s: seq<real>): real
    requires |s| > 0
  {
    if |s| == 1 then s[0]
    else
      var m := MaxOf(s[..|s| - 1]);
      if s[|s| - 1] > m then s[|s| - 1] else m
  }

  predicate NoDup<T(==)>(s: seq<T>)
  {
    forall i, j :: 0 <= i < j < |s| ==> s[i] != s[j]
  }

  lemma {:induction false} SumConcat(u: seq<real>, v: seq<real>)
    ensures Sum(u + v) == Sum(u) + Sum(v)
    decreases |v|
  {
    if |v| == 0 {
      assert u + v == u;
    } else {
      assert (u + v)[..|u + v| - 1] == u + v[..|v| - 1];
      SumConcat(u, v[..|v| - 1]);
    }
  }

  /** Every term of a sum of non-negative terms is non-negative, so is the sum. */
  lemma {:induction false} SumNonNegative(s: seq<real>)
    requires forall i :: 0 <= i < |s| ==> s[i] >= 0.0
    ensures Sum(s) >= 0.0
    decreases |s|
  {
    if |s| > 0 {
      SumNonNegative(s[..|s| - 1]);
    }
  }

  /** A sum of n copies of c is n * c. */
  lemma {:induction false} SumConstant(s: seq<real>, c: real)
    requires forall i :: 0 <= i < |s| ==> s[i] == c
    ensures Sum(s) == (|s| as real) * c
    decreases |s|
  {
    if |s| > 0 {
      SumConstant(s[..|s| - 1], c);
    }
  }

  /** The variance is never negative. */
  lemma VarianceNonNegative(s: seq<real>)
    requires |s| > 0
    ensures Variance(s).Some? && Variance(s).value >= 0.0
  {
    var d := SquaredDeviations(s, Mean(s));
    forall i | 0 <= i < |d|
      ensures d[i] >= 0.0
    {
      var e := s[i] - Mean(s);
      assert d[i] == e * e;
    }
    SumNonNegative(d);
  }

  /** A series that never changes has variance exactly zero. */
  lemma ConstantVarianceZero(s: seq<real>, c: real)
    requires |s| > 0
    requires forall i :: 0 <= i < |s| ==> s[i] == c
    ensures Variance(s) == Some(0.0)
  {
    SumConstant(s, c);
    assert Mean(s) == c;
    var d := SquaredDeviations(s, Mean(s));
    SumConstant(d, 0.0);
  }

  /** MaxOf is an upper bound that is attained: the usual meaning of a maximum. */
  lemma {:induction false} MaxOfIsMaximum(s: seq<real>)
    requires |s| > 0
    ensures forall i :: 0 <= i < |s| ==> s[i] <= MaxOf(s)
    ensures exists i :: 0 <= i < |s| && s[i] == MaxOf(s)
    decreases |s|
  {
    if |s| == 1 {
      assert s[0] == MaxOf(s);
    } else {
      var p := s[..|s| - 1];
      MaxOfIsMaximum(p);
      var k :| 0 <= k < |p| && p[k] == MaxOf(p);
      if s[|s| - 1] > MaxOf(p) {
        assert s[|s| - 1] == MaxOf(s);
      } else {
        assert s[k] == MaxOf(s);
      }
    }
  }

  /** The maximum reaches a threshold iff some element does. */
  lemma MaxOfAtLeast(s: seq<real>, threshold: real)
    requires |s| > 0
    ensures MaxOf(s) >= threshold <==> exists i :: 0 <= i < |s| && s[i] >= threshold
  {
    MaxOfIsMaximum(s);
  }

  /** Removing one element from a sum. */
  lemma {:induction false} SumRemove(b: seq<real>, i: int)
    requires 0 <= i < |b|
    ensures Sum(b) == Sum(b[..i] + b[i + 1..]) + b[i]
  {
    var u, x, v := b[..i], b[i], b[i + 1..];
    assert b == (u + [x]) + v;
    SumConcat(u + [x], v);
    assert (u + [x])[..|u + [x]| - 1] == u;
    SumConcat(u, v);
  }

  lemma MapSeqConcat<T>(u: seq<T>, v: seq<T>, f: T -> real)
    ensures MapSeq(u + v, f) == MapSeq(u, f) + MapSeq(v, f)
  {
  }

  /** Taking element i out of a mapped sum takes f of it out of the total. */
  lemma MapSumRemove<T>(q: seq<T>, i: int, f: T -> real)
    requires 0 <= i < |q|
    ensures Sum(MapSeq(q, f)) == Sum(MapSeq(q[..i] + q[i + 1..], f)) + f(q[i])
  {
    var mq := MapSeq(q, f);
    SumRemove(mq, i);
    assert mq[..i] == MapSeq(q[..i], f);
    assert mq[i + 1..] == MapSeq(q[i + 1..], f);
    MapSeqConcat(q[..i], q[i + 1..], f);
  }

  /** Taking element i out of a sequence takes one copy of it out of its multiset. */
  lemma MultisetRemove<T>(q: seq<T>, i: int)
    requires 0 <= i < |q|
    ensures multiset(q[..i] + q[i + 1..]) == multiset(q) - multiset{q[i]}
  {
    assert q == q[..i] + [q[i]] + q[i + 1..];
  }

  /** A sum over mapped elements does not depend on the order of the elements. */
  lemma {:induction false} SumMapPermutation<T>(p: seq<T>, q: seq<T>, f: T -> real)
    requires multiset(p) == multiset(q)
    ensures Sum(MapSeq(p, f)) == Sum(MapSeq(q, f))
    decreases |p|
  {
    if |p| == 0 {
      assert |q| == |multiset(q)| == 0;
      assert MapSeq(p, f) == MapSeq(q, f);
    } else {
      var k := |p| - 1;
      var x := p[k];
      assert x in multiset(q);
      var i :| 0 <= i < |q| && q[i] == x;
      var q' := q[..i] + q[i + 1..];
      var p' := p[..k] + p[k + 1..];
      MultisetRemove(q, i);
      MultisetRemove(p, k);
      SumMapPermutation(p', q', f);
      MapSumRemove(p, k, f);
      MapSumRemove(q, i, f);
    }
  }

  /** A duplicate-free sequence holds each of its elements exactly once. */
  lemma {:induction false} NoDupMultiplicity<T>(s: seq<T>, x: T)
    requires NoDup(s)
    ensures multiset(s)[x] == if x in s then 1 else 0
    decreases |s|
  {
    if |s| > 0 {
      var s' := s[..|s| - 1];
      assert s == s' + [s[|s| - 1]];
      NoDupMultiplicity(s', x);
      assert s[|s| - 1] !in s';
    }
  }

  /** Two duplicate-free enumerations of the same elements are permutations of each other. */
  lemma {:induction false} SameElementsPermutation<T>(p: seq<T>, q: seq<T>)
    requires NoDup(p) && NoDup(q)
    requires forall i :: 0 <= i < |p| ==> p[i] in q
    requires forall i :: 0 <= i < |q| ==> q[i] in p
    ensures multiset(p) == multiset(q)
  {
    forall x
      ensures multiset(p)[x] == multiset(q)[x]
    {
      NoDupMultiplicity(p, x);
      NoDupMultiplicity(q, x);
      if x in p {
        var i :| 0 <= i < |p| && p[i] == x;
      }
      if x in q {
        var i :| 0 <= i < |q| && q[i] == x;
      }
    }
  }
}
