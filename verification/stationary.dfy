/**
 The stationary-car filter (yolov3_CarAccidents.py, lines 151-158): a car
 whose radial distance from the image origin hardly varies over its path is
 taken to be parked and is removed from the car table before analysis.
 */
module Stationary {
  import opened Stats
  import opened Cars

  /** Stand-in for the radial distance sqrt(x*x + y*y) of a centre; the square root is not modelled. */
  type Norm = (real, real) -> real

  /** The x and y series of a car line up, as the element-wise numpy arithmetic needs. */
  predicate Paired(c: CarData)
  {
    |c.series.x| == |c.series.y|
  }

  /** Every label to be examined has a paired entry in the table. */
  predicate Examinable(cars: CarTable, labels: seq<Label>)
  {
    forall l :: l in labels ==> l in cars && Paired(cars[l])
  }

  /** The radial distance of the car at every frame of its path. */
  function Radii(c: CarData, norm: Norm): (r: seq<real>)
    requires Paired(c)
    ensures |r| == |c.series.x|
    ensures forall i :: 0 <= i < |r| ==> r[i] == norm(c.series.x[i], c.series.y[i])
  {
    seq(|c.series.x|, i requires 0 <= i < |c.series.x| => norm(c.series.x[i], c.series.y[i]))
  }

  /**
   A car is parked when the variance of its radial distance is below the
   threshold. A car with no samples has a NaN variance, and a comparison with
   NaN is false, so such a car is not parked.
   */
  predicate IsParked(c: CarData, tVar: real, norm: Norm)
    requires Paired(c)
  {
    var v := Variance(Radii(c, norm));
    v.Some? && v.value < tVar
  }

  /** Reference definition of the kept labels: the moving ones, in their original order. */
  function MovingLabels(cars: CarTable, labels: seq<Label>, tVar: real, norm: Norm): seq<Label>
    requires Examinable(cars, labels)
  {
    if |labels| == 0 then []
    else
      var l := labels[|labels| - 1];
      MovingLabels(cars, labels[..|labels| - 1], tVar, norm) + (if IsParked(cars[l], tVar, norm) then [] else [l])
  }

  /** The labels the filter deletes from the table. */
  function ParkedLabels(cars: CarTable, labels: seq<Label>, tVar: real, norm: Norm): set<Label>
    requires Examinable(cars, labels)
  {
    set l | l in labels && IsParked(cars[l], tVar, norm)
  }

  /**
   The filter loop: walks the labels in order, deletes each parked car from
   the table and appends each moving one to the list of labels to analyse.
   The labels come from a dictionary, so they are distinct, which is what
   lets every deletion find its key.
   */
  method DropParked(cars: CarTable, labels: seq<Label>, tVar: real, norm: Norm)
    returns (kept: seq<Label>, remaining: CarTable)
    requires Examinable(cars, labels)
    requires NoDup(labels)
    ensures kept == MovingLabels(cars, labels, tVar, norm)
    ensures remaining == cars - ParkedLabels(cars, labels, tVar, norm)
  {
    kept := [];
    remaining := cars;
    for i := 0 to |labels|
      invariant kept == MovingLabels(cars, labels[..i], tVar, norm)
      invariant remaining.Keys == cars.Keys - ParkedLabels(cars, labels[..i], tVar, norm)
      invariant forall l :: l in remaining ==> remaining[l] == cars[l]
    {
      var l := labels[i];
      FilterStep(cars, labels, i, tVar, norm);
      TableStep(cars, remaining, ParkedLabels(cars, labels[..i], tVar, norm), l);
      if IsParked(remaining[l], tVar, norm) {
        remaining := remaining - {l};
      } else {
        kept := kept + [l];
      }
    }
    assert labels[..|labels|] == labels;
    TableWithout(cars, remaining, ParkedLabels(cars, labels, tVar, norm));
  }

  lemma ExaminableAt(cars: CarTable, labels: seq<Label>, l: Label)
    requires Examinable(cars, labels) && l in labels
    ensures l in cars && Paired(cars[l])
  {
  }

  /** One step of the filter loop: label i is appended to the kept list or to the parked set. */
  lemma FilterStep(cars: CarTable, labels: seq<Label>, i: int, tVar: real, norm: Norm)
    requires Examinable(cars, labels)
    requires 0 <= i < |labels|
    ensures labels[i] in cars && Paired(cars[labels[i]])
    ensures Examinable(cars, labels[..i]) && Examinable(cars, labels[..i + 1])
    ensures MovingLabels(cars, labels[..i + 1], tVar, norm)
      == MovingLabels(cars, labels[..i], tVar, norm) + (if IsParked(cars[labels[i]], tVar, norm) then [] else [labels[i]])
    ensures ParkedLabels(cars, labels[..i + 1], tVar, norm)
      == ParkedLabels(cars, labels[..i], tVar, norm) + (if IsParked(cars[labels[i]], tVar, norm) then {labels[i]} else {})
    ensures NoDup(labels) ==> labels[i] !in ParkedLabels(cars, labels[..i], tVar, norm)
  {
    ExaminableAt(cars, labels, labels[i]);
    assert labels[..i + 1][..i] == labels[..i];
    assert labels[..i + 1] == labels[..i] + [labels[i]];
  }

  /** Deleting a present key l keeps every other entry and removes exactly l. */
  lemma TableStep(cars: CarTable, remaining: CarTable, gone: set<Label>, l: Label)
    requires remaining.Keys == cars.Keys - gone
    requires forall k :: k in remaining ==> remaining[k] == cars[k]
    requires l in cars && l !in gone
    ensures l in remaining && remaining[l] == cars[l]
    ensures (remaining - {l}).Keys == cars.Keys - (gone + {l})
    ensures forall k :: k in remaining - {l} ==> (remaining - {l})[k] == cars[k]
  {
  }

  lemma TableWithout(cars: CarTable, remaining: CarTable, gone: set<Label>)
    requires remaining.Keys == cars.Keys - gone
    requires forall l :: l in remaining ==> remaining[l] == cars[l]
    ensures remaining == cars - gone
  {
    var target := cars - gone;
    assert remaining.Keys == target.Keys;
    assert forall l :: l in target ==> remaining[l] == target[l];
  }

  /** A label is kept exactly when it is one of the input labels and its car is not parked. */
  lemma {:induction false} MovingLabelsMembers(cars: CarTable, labels: seq<Label>, tVar: real, norm: Norm, l: Label)
    requires Examinable(cars, labels)
    ensures l in MovingLabels(cars, labels, tVar, norm) <==> l in labels && !IsParked(cars[l], tVar, norm)
    decreases |labels|
  {
    if |labels| > 0 {
      var init := labels[..|labels| - 1];
      MovingLabelsMembers(cars, init, tVar, norm, l);
      assert labels == init + [labels[|labels| - 1]];
    }
  }

  /** `a` can be obtained from `b` by deleting elements, matching from the back. */
  predicate Subsequence(a: seq<Label>, b: seq<Label>)
  {
    if |a| == 0 then true
    else if |b| == 0 then false
    else if a[|a| - 1] == b[|b| - 1] then Subsequence(a[..|a| - 1], b[..|b| - 1])
    else Subsequence(a, b[..|b| - 1])
  }

  /** Appending to the longer sequence keeps a subsequence a subsequence. */
  lemma {:induction false} SubsequenceExtend(a: seq<Label>, b: seq<Label>, x: Label)
    requires Subsequence(a, b)
    ensures Subsequence(a, b + [x])
    decreases |a| + |b|, 1
  {
    var bx := b + [x];
    assert bx[..|bx| - 1] == b;
    if |a| > 0 && a[|a| - 1] == x {
      SubsequenceShorter(a, b);
    }
  }

  /** Dropping the last element of a subsequence keeps it a subsequence. */
  lemma {:induction false} SubsequenceShorter(a: seq<Label>, b: seq<Label>)
    requires |a| > 0 && Subsequence(a, b)
    ensures Subsequence(a[..|a| - 1], b)
    decreases |a| + |b|, 0
  {
    var a', b', y := a[..|a| - 1], b[..|b| - 1], b[|b| - 1];
    assert b' + [y] == b;
    if a[|a| - 1] != y {
      SubsequenceShorter(a, b');
    }
    SubsequenceExtend(a', b', y);
  }

  /** The kept labels keep their original relative order. */
  lemma {:induction false} MovingLabelsInOrder(cars: CarTable, labels: seq<Label>, tVar: real, norm: Norm)
    requires Examinable(cars, labels)
    ensures Subsequence(MovingLabels(cars, labels, tVar, norm), labels)
    decreases |labels|
  {
    if |labels| > 0 {
      var init := labels[..|labels| - 1];
      var l := labels[|labels| - 1];
      var m := MovingLabels(cars, init, tVar, norm);
      MovingLabelsInOrder(cars, init, tVar, norm);
      assert init + [l] == labels;
      var parked := IsParked(cars[l], tVar, norm);
      assert MovingLabels(cars, labels, tVar, norm) == m + (if parked then [] else [l]);
      if parked {
        SubsequenceExtend(m, init, l);
        assert m + [] == m;
      } else {
        var ml := m + [l];
        assert ml[..|ml| - 1] == m;
        assert Subsequence(ml, labels);
      }
    }
  }

  /** Distinct input labels give distinct kept labels. */
  lemma {:induction false} MovingLabelsNoDup(cars: CarTable, labels: seq<Label>, tVar: real, norm: Norm)
    requires Examinable(cars, labels)
    requires NoDup(labels)
    ensures NoDup(MovingLabels(cars, labels, tVar, norm))
    decreases |labels|
  {
    if |labels| > 0 {
      var init := labels[..|labels| - 1];
      var l := labels[|labels| - 1];
      MovingLabelsNoDup(cars, init, tVar, norm);
      MovingLabelsMembers(cars, init, tVar, norm, l);
      assert l !in init;
    }
  }

  /**
   The parked test spelled out: a car with samples is parked exactly when
   the sum of squared deviations of its radial distance from their mean is
   below T_var times the number of samples (population variance below
   T_var); a car without samples never is.
   */
  lemma ParkedMeans(c: CarData, tVar: real, norm: Norm)
    requires Paired(c)
    ensures |c.series.x| == 0 ==> !IsParked(c, tVar, norm)
    ensures |c.series.x| > 0 ==>
      var r := Radii(c, norm);
      (IsParked(c, tVar, norm) <==> Sum(SquaredDeviations(r, Mean(r))) < tVar * (|r| as real))
  {
    var r := Radii(c, norm);
    if |r| > 0 {
      var n := |r| as real;
      var d := SquaredDeviations(r, Mean(r));
      assert Variance(r).value == Sum(d) / n;
      BelowScaled(Sum(d), n, tVar);
    }
  }

  /** For a positive n, total / n < t exactly when total < t * n. */
  lemma BelowScaled(total: real, n: real, t: real)
    requires n > 0.0
    ensures total / n < t <==> total < t * n
  {
    assert (total / n) * n == total;
  }

  /** A car whose centre never moves has zero variance, so any positive threshold drops it. */
  lemma ParkedCarDropped(c: CarData, tVar: real, norm: Norm)
    requires Paired(c) && |c.series.x| > 0
    requires forall i :: 0 <= i < |c.series.x| ==> c.series.x[i] == c.series.x[0] && c.series.y[i] == c.series.y[0]
    requires tVar > 0.0
    ensures IsParked(c, tVar, norm)
  {
    ConstantVarianceZero(Radii(c, norm), norm(c.series.x[0], c.series.y[0]));
  }

  /** A car with no samples is never dropped (its variance is NaN). */
  lemma UnobservedCarKept(c: CarData, tVar: real, norm: Norm)
    requires Paired(c) && |c.series.x| == 0
    ensures !IsParked(c, tVar, norm)
  {
  }
}
