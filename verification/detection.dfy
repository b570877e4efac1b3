/**
 The detection stage for one folder of frames (yolov3_CarAccidents.py,
 lines 151-255), from the per-car table to the verdict: drop parked cars,
 interpolate the rest (or skip the folder), scan for overlaps, look for
 acceleration and angle anomalies around the first overlap frame, and add
 up the three checks.

 `frame_overlapped` is a variable of the script's folder loop, so a folder
 without any overlap still sees the value an earlier folder left behind;
 the stage takes that value as `carried` and returns the one it leaves.
 */
module Detection {
  import opened Wrappers
  import opened Stats
  import opened Cars
  import opened Stationary
  import opened Interpolation
  import opened Overlap
  import opened Anomaly
  import opened Verdict

  /** The helpers the stage calls but which are not part of this model. */
  datatype Helpers = Helpers(norm: Norm, interp: Interpolator, overlap: OverlapTest, change: AngleChange)

  /** How the stage ends for one folder. */
  datatype Outcome =
    | Skipped                                             // some interpolation failed: the folder is passed over
    | Unbound                                             // no overlap and no earlier frame_overlapped: the script stops on an unbound name
    | OutOfWindow(frame: int, car: Label)                 // a window of `car` around `frame` leaves its acceleration series
    | Scored(frame: int, overlapped: set<Label>, checks: Checks)

  /** Number of frames scanned for overlaps: range(frame_end_with - frame_start_with). */
  function ScanFrames(cfg: Config): nat
  {
    if cfg.Frames() < 0 then 0 else cfg.Frames()
  }

  /** Every successful interpolation yields positions for every scanned frame. */
  ghost predicate DenseInterpolation(h: Helpers, frames: nat)
  {
    forall l :: h.interp(l).Points? ==> |h.interp(l).series.x| >= frames && |h.interp(l).series.y| >= frames
  }

  /** The scene the overlap scan sees, as a function of the stage's inputs. */
  function SceneOf(cfg: Config, cars: CarTable, labels: seq<Label>, h: Helpers): Scene
    requires Examinable(cars, labels)
  {
    var kept := MovingLabels(cars, labels, cfg.tVar, h.norm);
    var remaining := cars - ParkedLabels(cars, labels, cfg.tVar, h.norm);
    Scene(Refilled(remaining, kept, h.interp), kept, ScanFrames(cfg), cfg.kOverlap, h.overlap)
  }

  /** No pair overlaps at any scanned frame. */
  ghost predicate NoOverlap(sc: Scene)
  {
    forall f :: 0 <= f < sc.frames ==> !OverlapAt(sc, f)
  }

  /** `p` lists the elements of `s`, each once, in some order. */
  predicate Enumerates(p: seq<Label>, s: set<Label>)
  {
    && NoDup(p)
    && (forall i :: 0 <= i < |p| ==> p[i] in s)
    && (forall x :: x in s ==> x in p)
  }

  /**
   Line 199: `[label for label in overlapped]`. The set's iteration order
   is not part of this model; this listing follows `universe` (the kept
   list), and the checks built on it are shown not to depend on the order.
   */
  method Enumerate(s: set<Label>, universe: seq<Label>) returns (p: seq<Label>)
    requires forall x :: x in s ==> x in universe
    ensures Enumerates(p, s)
  {
    p := [];
    for i := 0 to |universe|
      invariant NoDup(p)
      invariant forall k :: 0 <= k < |p| ==> p[k] in s
      invariant forall k :: 0 <= k < i && universe[k] in s ==> universe[k] in p
    {
      var x := universe[i];
      if x in s && x !in p {
        p := p + [x];
      }
    }
    forall x | x in s
      ensures x in p
    {
      var k :| 0 <= k < |universe| && universe[k] == x;
    }
  }

  /** The outcome's acceleration check is strong exactly when the mean jump, in any listing order, reaches T_acc. */
  ghost predicate AccelerationAnomaly(cars: CarTable, overlapped: set<Label>, fo: int, interval: nat, tAcc: real)
  {
    && overlapped != {}
    && forall p :: Enumerates(p, overlapped) && |p| > 0 ==> MeanJump(cars, p, fo, interval) >= tAcc
  }

  /** Some overlapped car's angle change reaches the trajectory threshold. */
  ghost predicate AngleAnomaly(cars: CarTable, overlapped: set<Label>, fo: int, interval: nat, threshold: real, change: AngleChange)
  {
    exists l :: l in overlapped && l in cars && change(cars[l].series.angle, fo, interval) >= threshold
  }

  /**
   Some car involved in an overlap has a window around frame f that leaves
   its acceleration series: the script's IndexError at line 217 or 225.
   */
  ghost predicate WindowLeaves(sc: Scene, f: int, interval: nat)
  {
    exists l :: Involved(sc, l) && l in sc.cars && !WindowsFit(sc.cars[l].series.acceleration, f, interval)
  }

  /**
   Lines 151-177: the stationary filter followed by the interpolation gate.
   None when the folder is skipped; otherwise the scene the overlap scan
   works on, whose every kept car has a position at every scanned frame.
   */
  method Prepare(cfg: Config, cars: CarTable, labels: seq<Label>, h: Helpers) returns (r: Option<Scene>)
    requires Examinable(cars, labels)
    requires NoDup(labels)
    requires DenseInterpolation(h, ScanFrames(cfg))
    ensures r.None? <==> AnyFailure(MovingLabels(cars, labels, cfg.tVar, h.norm), h.interp)
    ensures r.Some? ==> r.value == SceneOf(cfg, cars, labels, h) && Covered(r.value)
  {
    var kept, remaining := DropParked(cars, labels, cfg.tVar, h.norm);
    forall l | l in kept
      ensures l in remaining
    {
      MovingLabelsMembers(cars, labels, cfg.tVar, h.norm, l);
    }
    var refilled := ApplyInterpolation(remaining, kept, h.interp);
    if refilled.None? {
      return None;
    }
    var sc := Scene(refilled.value, kept, ScanFrames(cfg), cfg.kOverlap, h.overlap);
    assert Covered(sc);
    return Some(sc);
  }

  /**
   Lines 199-255 once the reference frame `fo` is known: list the
   overlapped cars, give up if a window around `fo` leaves some car's
   acceleration series, else run the two anomaly checks and collect the
   three results.
   */
  method Assess(sc: Scene, overlapped: set<Label>, fo: int, overlapSeen: bool, cfg: Config, change: AngleChange)
    returns (outcome: Outcome)
    requires Covered(sc)
    requires forall l :: l in overlapped ==> l in sc.kept
    ensures outcome.OutOfWindow? || outcome.Scored?
    ensures outcome.frame == fo
    ensures outcome.OutOfWindow? ==>
      outcome.car in overlapped && outcome.car in sc.cars
      && !WindowsFit(sc.cars[outcome.car].series.acceleration, fo, cfg.interval)
    ensures outcome.OutOfWindow? <==>
      exists l :: l in overlapped && l in sc.cars && !WindowsFit(sc.cars[l].series.acceleration, fo, cfg.interval)
    ensures outcome.Scored? ==>
      && outcome.overlapped == overlapped
      && (outcome.checks.overlap.Strong? <==> overlapSeen)
      && (outcome.checks.acceleration.Strong? <==> AccelerationAnomaly(sc.cars, overlapped, fo, cfg.interval, cfg.tAcc))
      && (outcome.checks.angle.Strong? <==> AngleAnomaly(sc.cars, overlapped, fo, cfg.interval, cfg.trajectoryThreshold, change))
    ensures outcome.Scored? && overlapped == {} ==> !IsAccident(outcome.checks) || overlapSeen
  {
    var table := sc.cars;
    var potential := Enumerate(overlapped, sc.kept);
    forall k | 0 <= k < |potential|
      ensures potential[k] in table
    {
      assert potential[k] in overlapped;
      CoveredAt(sc, potential[k]);
    }
    var k := 0;
    while k < |potential|
      invariant k <= |potential|
      invariant AccelerationWindowsFit(table, potential[..k], fo, cfg.interval)
    {
      if !WindowsFit(table[potential[k]].series.acceleration, fo, cfg.interval) {
        assert potential[k] in overlapped;
        return OutOfWindow(fo, potential[k]);
      }
      k := k + 1;
    }
    assert potential[..k] == potential;
    forall l | l in overlapped && l in table
      ensures WindowsFit(table[l].series.acceleration, fo, cfg.interval)
    {
      ListedFits(table, overlapped, potential, fo, cfg.interval, l);
    }

    var _, accCheck := AccelerationCheck(table, potential, fo, cfg.interval, cfg.tAcc);
    var _, angleCheck := AngleCheck(table, potential, fo, cfg.interval, cfg.trajectoryThreshold, change);
    AccelerationIsOrderFree(table, overlapped, potential, fo, cfg.interval, cfg.tAcc, accCheck);
    AngleIsSetWide(table, overlapped, potential, fo, cfg.interval, cfg.trajectoryThreshold, change, angleCheck);
    outcome := Scored(fo, overlapped, Checks(EvidenceIf(overlapSeen), accCheck, angleCheck));
  }

  /**
   The whole stage for one folder. The result is determined by the inputs:
   the kept labels and table follow the stationary filter and the
   interpolation gate, the overlap facts follow the scan, and the two
   anomaly checks do not depend on the order in which the overlapped set is
   listed.
   */
  method DetectFolder(cfg: Config, cars: CarTable, labels: seq<Label>, h: Helpers, carried: Option<int>)
    returns (outcome: Outcome, carriedOut: Option<int>)
    requires Examinable(cars, labels)
    requires NoDup(labels)
    requires DenseInterpolation(h, ScanFrames(cfg))
    ensures outcome.Skipped? <==> AnyFailure(MovingLabels(cars, labels, cfg.tVar, h.norm), h.interp)
    ensures outcome.Skipped? ==> carriedOut == carried
    ensures !outcome.Skipped? ==>
      var sc := SceneOf(cfg, cars, labels, h);
      && (outcome.Unbound? <==> NoOverlap(sc) && carried.None?)
      && (outcome.OutOfWindow? ==>
            Involved(sc, outcome.car) && outcome.car in sc.cars
            && !WindowsFit(sc.cars[outcome.car].series.acceleration, outcome.frame, cfg.interval)
            && FirstOverlap(sc, outcome.frame))
      && (forall f :: FirstOverlap(sc, f) && WindowLeaves(sc, f, cfg.interval) ==>
            outcome.OutOfWindow? && outcome.frame == f)
      && (outcome.Scored? ==> !WindowLeaves(sc, outcome.frame, cfg.interval))
      && (outcome.Scored? ==>
            && (forall l :: l in outcome.overlapped <==> Involved(sc, l))
            && (outcome.checks.overlap.Strong? <==> !NoOverlap(sc))
            && (outcome.checks.overlap.Strong? ==> FirstOverlap(sc, outcome.frame))
            && (outcome.checks.overlap.Weak? ==> outcome.frame == carried.value)
            && (IsAccident(outcome.checks) <==> !NoOverlap(sc))
            && (outcome.checks.acceleration.Strong? <==>
                  AccelerationAnomaly(sc.cars, outcome.overlapped, outcome.frame, cfg.interval, cfg.tAcc))
            && (outcome.checks.angle.Strong? <==>
                  AngleAnomaly(sc.cars, outcome.overlapped, outcome.frame, cfg.interval, cfg.trajectoryThreshold, h.change)))
      && (outcome.Scored? || outcome.OutOfWindow? ==> carriedOut == Some(outcome.frame))
  {
    var prepared := Prepare(cfg, cars, labels, h);
    if prepared.None? {
      return Skipped, carried;
    }
    var sc := prepared.value;
    var overlapped, first := ScanOverlaps(sc);
    InvolvedCars(sc);

    assert NoOverlap(sc) <==> first.None?;
    var fo: int;
    if first.Some? {
      fo := first.value;
    } else if carried.Some? {
      fo := carried.value;
    } else {
      return Unbound, None;
    }
    outcome := Assess(sc, overlapped, fo, first.Some?, cfg, h.change);
    carriedOut := Some(fo);
    if outcome.OutOfWindow? {
      assert Involved(sc, outcome.car);
    }
    if first.None? {
      NothingInvolved(sc, overlapped);
      assert !outcome.OutOfWindow?;
    } else {
      forall f | FirstOverlap(sc, f)
        ensures f == fo
      {
        FirstOverlapUnique(sc, f, fo);
      }
    }
    LeavesIffOverlappedLeaves(sc, overlapped, fo, cfg.interval);
  }

  /** WindowLeaves over the involved cars is the Assess condition over the overlapped set. */
  lemma LeavesIffOverlappedLeaves(sc: Scene, overlapped: set<Label>, fo: int, interval: nat)
    requires forall l :: l in overlapped <==> Involved(sc, l)
    ensures WindowLeaves(sc, fo, interval) <==>
      exists l :: l in overlapped && l in sc.cars && !WindowsFit(sc.cars[l].series.acceleration, fo, interval)
  {
    if WindowLeaves(sc, fo, interval) {
      var l :| Involved(sc, l) && l in sc.cars && !WindowsFit(sc.cars[l].series.acceleration, fo, interval);
      assert l in overlapped;
    }
  }

  /** A car of the overlapped set is checked by the window loop over a listing of the set. */
  lemma ListedFits(cars: CarTable, overlapped: set<Label>, potential: seq<Label>, fo: int, interval: nat, l: Label)
    requires Enumerates(potential, overlapped)
    requires AccelerationWindowsFit(cars, potential, fo, interval)
    requires l in overlapped
    ensures l in cars && WindowsFit(cars[l].series.acceleration, fo, interval)
  {
    ListedMember(potential, overlapped, l);
    var k :| 0 <= k < |potential| && potential[k] == l;
  }

  /** With no overlap at any scanned frame, no car is involved. */
  lemma NothingInvolved(sc: Scene, overlapped: set<Label>)
    requires NoOverlap(sc)
    requires forall l :: l in overlapped <==> Involved(sc, l)
    ensures overlapped == {}
  {
    InvolvedCars(sc);
    assert forall l :: !Involved(sc, l);
    assert forall l :: l !in overlapped;
    var none: set<Label> := {};
    assert forall l :: l in overlapped <==> l in none;
  }

  lemma SameListings(p: seq<Label>, q: seq<Label>, s: set<Label>)
    requires Enumerates(p, s) && Enumerates(q, s)
    ensures forall i :: 0 <= i < |p| ==> p[i] in q
    ensures forall i :: 0 <= i < |q| ==> q[i] in p
  {
    forall i | 0 <= i < |p|
      ensures p[i] in q
    {
      ListedMember(q, s, p[i]);
    }
    forall i | 0 <= i < |q|
      ensures q[i] in p
    {
      ListedMember(p, s, q[i]);
    }
  }

  lemma ListedMember(p: seq<Label>, s: set<Label>, x: Label)
    requires Enumerates(p, s) && x in s
    ensures x in p
  {
  }

  /** The acceleration check computed on one listing of the overlapped set holds for every listing. */
  lemma AccelerationIsOrderFree(cars: CarTable, overlapped: set<Label>, potential: seq<Label>, fo: int, interval: nat,
                                tAcc: real, e: Evidence)
    requires Enumerates(potential, overlapped)
    requires e.Strong? <==> |potential| > 0 && MeanJump(cars, potential, fo, interval) >= tAcc
    ensures e.Strong? <==> AccelerationAnomaly(cars, overlapped, fo, interval, tAcc)
  {
    if |potential| > 0 {
      forall p | Enumerates(p, overlapped) && |p| > 0
        ensures MeanJump(cars, p, fo, interval) == MeanJump(cars, potential, fo, interval)
      {
        SameListings(p, potential, overlapped);
        MeanJumpOrderFree(cars, potential, p, fo, interval);
      }
    } else {
      assert forall x :: x in overlapped ==> x in potential;
      assert overlapped == {};
    }
  }

  /** The angle check on a listing of the overlapped set is a statement about the set. */
  lemma AngleIsSetWide(cars: CarTable, overlapped: set<Label>, potential: seq<Label>, fo: int, interval: nat,
                       threshold: real, change: AngleChange, e: Evidence)
    requires Enumerates(potential, overlapped)
    requires forall k :: 0 <= k < |potential| ==> potential[k] in cars
    requires e.Strong? <==> exists k :: 0 <= k < |potential| && change(cars[potential[k]].series.angle, fo, interval) >= threshold
    ensures e.Strong? <==> AngleAnomaly(cars, overlapped, fo, interval, threshold, change)
  {
    if AngleAnomaly(cars, overlapped, fo, interval, threshold, change) {
      var l :| l in overlapped && l in cars && change(cars[l].series.angle, fo, interval) >= threshold;
      assert l in potential;
      var k :| 0 <= k < |potential| && potential[k] == l;
    }
    if e.Strong? {
      var k :| 0 <= k < |potential| && change(cars[potential[k]].series.angle, fo, interval) >= threshold;
      var l := potential[k];
      assert l in overlapped;
      assert l in overlapped && l in cars && change(cars[l].series.angle, fo, interval) >= threshold;
    }
  }
}
