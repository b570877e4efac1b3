/**
 The all-or-nothing interpolation gate (yolov3_CarAccidents.py, lines
 160-177). Every kept car's path is interpolated to a dense series; the
 interpolation itself belongs to the tracking package and is not part of
 this model, so it enters as a function from label to outcome. If any car's
 interpolation reports an error the whole folder is skipped; otherwise each
 kept car's series are replaced by the interpolated ones.
 */
module Interpolation {
  import opened Wrappers
  import opened Cars

  /** What interpolating one car's path produced: an error flag, or dense series. */
  datatype Interpolated = Failed | Points(series: Series)

  /** `path.interpolate(label, ...)` for the folder at hand. */
  type Interpolator = Label -> Interpolated

  /** The car record after its series were replaced; the diagonal is kept. */
  function Refill(c: CarData, s: Series): (r: CarData)
    ensures r.series == s && r.diagonal == c.diagonal
  {
    c.(series := s)
  }

  /** The table once every kept car that interpolated successfully has its series replaced. */
  function Refilled(cars: CarTable, kept: seq<Label>, interp: Interpolator): CarTable
  {
    map l | l in cars :: if l in kept && interp(l).Points? then Refill(cars[l], interp(l).series) else cars[l]
  }

  lemma RefilledTable(cars: CarTable, kept: seq<Label>, interp: Interpolator, table: CarTable)
    requires table.Keys == cars.Keys
    requires forall l :: l in kept ==> l in cars && interp(l).Points?
    requires forall l :: l in cars && l !in kept ==> table[l] == cars[l]
    requires forall l :: l in kept ==> table[l] == Refill(cars[l], interp(l).series)
    ensures table == Refilled(cars, kept, interp)
  {
    var target := Refilled(cars, kept, interp);
    assert table.Keys == target.Keys;
    assert forall l :: l in target ==> table[l] == target[l];
  }

  /** Some kept car could not be interpolated. */
  predicate AnyFailure(kept: seq<Label>, interp: Interpolator)
  {
    exists l :: l in kept && interp(l).Failed?
  }

  /**
   The gate loop: interpolates each kept car in order, writing successful
   results into the table and raising a flag on a failure; a raised flag
   skips the folder (None).
   */
  method ApplyInterpolation(cars: CarTable, kept: seq<Label>, interp: Interpolator)
    returns (r: Option<CarTable>)
    requires forall l :: l in kept ==> l in cars
    ensures r.None? <==> AnyFailure(kept, interp)
    ensures r.Some? ==> r.value == Refilled(cars, kept, interp)
    ensures r.Some? ==> r.value.Keys == cars.Keys
    ensures r.Some? ==> forall l :: l in kept ==> interp(l).Points? && r.value[l] == Refill(cars[l], interp(l).series)
    ensures r.Some? ==> forall l :: l in cars && l !in kept ==> r.value[l] == cars[l]
  {
    var failed := false;
    var table := cars;
    for i := 0 to |kept|
      invariant table.Keys == cars.Keys
      invariant failed <==> exists j :: 0 <= j < i && interp(kept[j]).Failed?
      invariant forall l :: l in cars && l !in kept[..i] ==> table[l] == cars[l]
      invariant forall l :: l in kept[..i] && interp(l).Points? ==> table[l] == Refill(cars[l], interp(l).series)
    {
      var l := kept[i];
      assert kept[..i + 1] == kept[..i] + [l];
      match interp(l)
      case Failed =>
        failed := true;
      case Points(s) =>
        table := table[l := Refill(table[l], s)];
    }
    assert kept[..|kept|] == kept;
    if failed {
      var j :| 0 <= j < |kept| && interp(kept[j]).Failed?;
      var bad := kept[j];
      assert bad in kept && interp(bad).Failed?;
      assert AnyFailure(kept, interp);
      r := None;
    } else {
      forall l | l in kept
        ensures interp(l).Points?
      {
        var j :| 0 <= j < |kept| && kept[j] == l;
      }
      assert !AnyFailure(kept, interp);
      RefilledTable(cars, kept, interp, table);
      r := Some(table);
    }
  }
}
