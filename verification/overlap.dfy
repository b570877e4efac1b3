/**
 The pairwise overlap scan (yolov3_CarAccidents.py, lines 180-199). For
 every frame and every ordered pair of distinct kept cars the overlap test of
 the accident package is asked whether the two cars overlap; both cars of an
 overlapping pair are collected, and the first frame at which any pair
 overlaps becomes the reference frame of the later checks. The overlap test
 itself is not part of this model and is not assumed to be symmetric.
 */
module Overlap {
  import opened Wrappers
  import opened Cars

  /** `check_overlap(centre_a, centre_b, diagonal_a, diagonal_b, k_overlap)`. */
  type OverlapTest = (Point, Point, real, real, real) -> bool

  /** Everything the scan looks at: the table, the kept labels in order, the frame count, the ratio and the test. */
  datatype Scene = Scene(cars: CarTable, kept: seq<Label>, frames: nat, k: real, overlap: OverlapTest)

  /** Every kept car has a position at every scanned frame. */
  predicate Covered(sc: Scene)
  {
    forall l :: l in sc.kept ==> l in sc.cars && |sc.cars[l].series.x| >= sc.frames && |sc.cars[l].series.y| >= sc.frames
  }

  /** The cars at positions i and j of the kept list are distinct and the test reports an overlap at frame f. */
  predicate Collide(sc: Scene, f: int, i: int, j: int)
  {
    && 0 <= f < sc.frames
    && 0 <= i < |sc.kept| && 0 <= j < |sc.kept|
    && sc.kept[i] != sc.kept[j]
    && var a, b := sc.kept[i], sc.kept[j];
    && a in sc.cars && b in sc.cars
    && f < |sc.cars[a].series.x| && f < |sc.cars[a].series.y|
    && f < |sc.cars[b].series.x| && f < |sc.cars[b].series.y|
    && sc.overlap(PositionAt(sc.cars[a], f), PositionAt(sc.cars[b], f), sc.cars[a].diagonal, sc.cars[b].diagonal, sc.k)
  }

  /** Some ordered pair overlaps at frame f. */
  ghost predicate OverlapAt(sc: Scene, f: int)
  {
    exists i, j :: Collide(sc, f, i, j)
  }

  /** Car l is one of the two cars, in either position, of some overlapping pair at some frame. */
  ghost predicate Involved(sc: Scene, l: Label)
  {
    exists f, i, j :: Collide(sc, f, i, j) && (sc.kept[i] == l || sc.kept[j] == l)
  }

  /** f is the earliest frame at which some pair overlaps. */
  ghost predicate FirstOverlap(sc: Scene, f: int)
  {
    OverlapAt(sc, f) && forall g :: 0 <= g < f ==> !OverlapAt(sc, g)
  }

  /** At most one frame is the first overlap frame. */
  lemma FirstOverlapUnique(sc: Scene, f: int, g: int)
    requires FirstOverlap(sc, f) && FirstOverlap(sc, g)
    ensures f == g
  {
  }

  /** Cars marked while visiting second cars 0 .. j-1 against first car i at frame f. */
  function RowMarks(sc: Scene, f: int, i: int, j: nat): set<Label>
    decreases j
  {
    if j == 0 then {}
    else RowMarks(sc, f, i, j - 1) + (if Collide(sc, f, i, j - 1) then {sc.kept[i], sc.kept[j - 1]} else {})
  }

  /** Cars marked while visiting first cars 0 .. i-1 at frame f. */
  function FrameMarks(sc: Scene, f: int, i: nat): set<Label>
    decreases i
  {
    if i == 0 then {} else FrameMarks(sc, f, i - 1) + RowMarks(sc, f, i - 1, |sc.kept|)
  }

  /** Cars marked while visiting frames 0 .. f-1. */
  function ScanMarks(sc: Scene, f: nat): set<Label>
    decreases f
  {
    if f == 0 then {} else ScanMarks(sc, f - 1) + FrameMarks(sc, f - 1, |sc.kept|)
  }

  /** Some second car among 0 .. j-1 overlaps first car i at frame f. */
  function RowHit(sc: Scene, f: int, i: int, j: nat): bool
    decreases j
  {
    j > 0 && (RowHit(sc, f, i, j - 1) || Collide(sc, f, i, j - 1))
  }

  /** Some pair with first car among 0 .. i-1 overlaps at frame f. */
  function FrameHit(sc: Scene, f: int, i: nat): bool
    decreases i
  {
    i > 0 && (FrameHit(sc, f, i - 1) || RowHit(sc, f, i - 1, |sc.kept|))
  }

  /** The frame recorded by a scan of frames 0 .. f-1: the first one at which some pair overlapped. */
  function FirstMark(sc: Scene, f: nat): Option<nat>
    decreases f
  {
    if f == 0 then None
    else if FirstMark(sc, f - 1).Some? then FirstMark(sc, f - 1)
    else if FrameHit(sc, f - 1, |sc.kept|) then Some(f - 1)
    else None
  }

  /** The frame recorded once frames before f, first cars before i at frame f, and second cars before j of row i have been visited. */
  function FirstSoFar(sc: Scene, f: nat, i: nat, j: nat): Option<nat>
  {
    if FirstMark(sc, f).Some? then FirstMark(sc, f)
    else if FrameHit(sc, f, i) || RowHit(sc, f, i, j) then Some(f)
    else None
  }

  /**
   The scan loop of the source: frames, then first car, then second car, in
   the order of the kept list. `first` plays the part of the `flag` and
   `frame_overlapped` pair: None while the flag is still raised.
   */
  method ScanOverlaps(sc: Scene) returns (overlapped: set<Label>, first: Option<nat>)
    requires Covered(sc)
    ensures forall l :: l in overlapped <==> Involved(sc, l)
    ensures first.None? <==> forall f :: 0 <= f < sc.frames ==> !OverlapAt(sc, f)
    ensures first.Some? ==> first.value < sc.frames && FirstOverlap(sc, first.value)
  {
    overlapped := {};
    first := None;
    for f := 0 to sc.frames
      invariant overlapped == ScanMarks(sc, f)
      invariant first == FirstMark(sc, f)
    {
      overlapped, first := ScanFrame(sc, f, overlapped, first);
      FrameDone(sc, f);
    }
    forall l
      ensures l in overlapped <==> Involved(sc, l)
    {
      ScanMarksMembers(sc, sc.frames, l);
    }
    FirstMarkIsFirst(sc, sc.frames);
  }

  /** The loop over first cars at frame f (lines 185-192). */
  method ScanFrame(sc: Scene, f: nat, marks: set<Label>, first: Option<nat>) returns (marks': set<Label>, first': Option<nat>)
    requires Covered(sc) && f < sc.frames
    requires first == FirstMark(sc, f)
    ensures marks' == marks + FrameMarks(sc, f, |sc.kept|)
    ensures first' == FirstSoFar(sc, f, |sc.kept|, 0)
  {
    marks', first' := marks, first;
    for i := 0 to |sc.kept|
      invariant marks' == marks + FrameMarks(sc, f, i)
      invariant first' == FirstSoFar(sc, f, i, 0)
    {
      marks', first' := ScanRow(sc, f, i, marks', first');
      RowDone(sc, f, i);
    }
  }

  /** The loop over second cars against first car i at frame f (lines 186-192). */
  method ScanRow(sc: Scene, f: nat, i: nat, marks: set<Label>, first: Option<nat>) returns (marks': set<Label>, first': Option<nat>)
    requires Covered(sc) && f < sc.frames && i < |sc.kept|
    requires first == FirstSoFar(sc, f, i, 0)
    ensures marks' == marks + RowMarks(sc, f, i, |sc.kept|)
    ensures first' == FirstSoFar(sc, f, i, |sc.kept|)
  {
    marks', first' := marks, first;
    var a := sc.kept[i];
    for j := 0 to |sc.kept|
      invariant marks' == marks + RowMarks(sc, f, i, j)
      invariant first' == FirstSoFar(sc, f, i, j)
    {
      var b := sc.kept[j];
      ScanStep(sc, f, i, j);
      if b != a && sc.overlap(PositionAt(sc.cars[a], f), PositionAt(sc.cars[b], f), sc.cars[a].diagonal, sc.cars[b].diagonal, sc.k) {
        marks' := marks' + {a, b};
        if first'.None? {
          first' := Some(f);
        }
      }
    }
  }

  /** One visit of the innermost loop: the pair (i, j) is tested at frame f and the marks and recorded frame advance. */
  lemma ScanStep(sc: Scene, f: nat, i: nat, j: nat)
    requires Covered(sc)
    requires f < sc.frames && i < |sc.kept| && j < |sc.kept|
    ensures sc.kept[i] in sc.cars && sc.kept[j] in sc.cars
    ensures f < |sc.cars[sc.kept[i]].series.x| && f < |sc.cars[sc.kept[i]].series.y|
    ensures f < |sc.cars[sc.kept[j]].series.x| && f < |sc.cars[sc.kept[j]].series.y|
    ensures Collide(sc, f, i, j) <==>
      var a, b := sc.kept[i], sc.kept[j];
      b != a && sc.overlap(PositionAt(sc.cars[a], f), PositionAt(sc.cars[b], f), sc.cars[a].diagonal, sc.cars[b].diagonal, sc.k)
    ensures RowMarks(sc, f, i, j + 1) == RowMarks(sc, f, i, j) + (if Collide(sc, f, i, j) then {sc.kept[i], sc.kept[j]} else {})
    ensures FirstSoFar(sc, f, i, j + 1) ==
      if FirstSoFar(sc, f, i, j).Some? then FirstSoFar(sc, f, i, j)
      else if Collide(sc, f, i, j) then Some(f) else None
  {
    CoveredAt(sc, sc.kept[i]);
    CoveredAt(sc, sc.kept[j]);
  }

  /** Finishing row i of frame f: its marks join the frame's, and the recorded frame carries over to the next row. */
  lemma RowDone(sc: Scene, f: nat, i: nat)
    ensures FrameMarks(sc, f, i + 1) == FrameMarks(sc, f, i) + RowMarks(sc, f, i, |sc.kept|)
    ensures FirstSoFar(sc, f, i + 1, 0) == FirstSoFar(sc, f, i, |sc.kept|)
  {
  }

  /** Finishing frame f: its marks join the scan's, and the recorded frame carries over to the next frame. */
  lemma FrameDone(sc: Scene, f: nat)
    ensures ScanMarks(sc, f + 1) == ScanMarks(sc, f) + FrameMarks(sc, f, |sc.kept|)
    ensures FirstMark(sc, f + 1) == FirstSoFar(sc, f, |sc.kept|, 0)
  {
  }

  /** A kept car of a covered scene has a position at every scanned frame. */
  lemma CoveredAt(sc: Scene, l: Label)
    requires Covered(sc) && l in sc.kept
    ensures l in sc.cars && |sc.cars[l].series.x| >= sc.frames && |sc.cars[l].series.y| >= sc.frames
  {
  }

  lemma {:induction false} RowMarksMembers(sc: Scene, f: int, i: int, j: nat, l: Label)
    ensures l in RowMarks(sc, f, i, j) <==>
      exists j' :: 0 <= j' < j && Collide(sc, f, i, j') && (sc.kept[i] == l || sc.kept[j'] == l)
    decreases j
  {
    if j > 0 {
      RowMarksMembers(sc, f, i, j - 1, l);
    }
  }

  lemma {:induction false} FrameMarksMembers(sc: Scene, f: int, i: nat, l: Label)
    ensures l in FrameMarks(sc, f, i) <==>
      exists i', j' :: 0 <= i' < i && Collide(sc, f, i', j') && (sc.kept[i'] == l || sc.kept[j'] == l)
    decreases i
  {
    if i > 0 {
      FrameMarksMembers(sc, f, i - 1, l);
      RowMarksMembers(sc, f, i - 1, |sc.kept|, l);
    }
  }

  /** The cars the scan marks are exactly the cars involved in an overlap at one of the visited frames. */
  lemma {:induction false} ScanMarksMembers(sc: Scene, f: nat, l: Label)
    ensures l in ScanMarks(sc, f) <==>
      exists f', i', j' :: 0 <= f' < f && Collide(sc, f', i', j') && (sc.kept[i'] == l || sc.kept[j'] == l)
    decreases f
  {
    if f > 0 {
      ScanMarksMembers(sc, f - 1, l);
      FrameMarksMembers(sc, f - 1, |sc.kept|, l);
    }
  }

  lemma {:induction false} RowHitMeans(sc: Scene, f: int, i: int, j: nat)
    ensures RowHit(sc, f, i, j) <==> exists j' :: 0 <= j' < j && Collide(sc, f, i, j')
    decreases j
  {
    if j > 0 {
      RowHitMeans(sc, f, i, j - 1);
    }
  }

  lemma {:induction false} FrameHitMeans(sc: Scene, f: int, i: nat)
    ensures FrameHit(sc, f, i) <==> exists i', j' :: 0 <= i' < i && Collide(sc, f, i', j')
    decreases i
  {
    if i > 0 {
      FrameHitMeans(sc, f, i - 1);
      RowHitMeans(sc, f, i - 1, |sc.kept|);
    }
  }

  /** A full pass over the pairs of a frame finds an overlap exactly when one exists there. */
  lemma FrameHitIsOverlap(sc: Scene, f: int)
    ensures FrameHit(sc, f, |sc.kept|) <==> OverlapAt(sc, f)
  {
    FrameHitMeans(sc, f, |sc.kept|);
  }

  /** The recorded frame is the first frame with an overlap, and nothing is recorded when no frame has one. */
  lemma {:induction false} FirstMarkIsFirst(sc: Scene, f: nat)
    ensures FirstMark(sc, f).None? <==> forall g :: 0 <= g < f ==> !OverlapAt(sc, g)
    ensures FirstMark(sc, f).Some? ==> FirstMark(sc, f).value < f && FirstOverlap(sc, FirstMark(sc, f).value)
    decreases f
  {
    if f > 0 {
      FirstMarkIsFirst(sc, f - 1);
      FrameHitIsOverlap(sc, f - 1);
    }
  }

  /** Only kept cars are ever involved, and some car is involved exactly when some frame has an overlapping pair, which then involves two distinct cars. */
  lemma InvolvedCars(sc: Scene)
    ensures forall l :: Involved(sc, l) ==> l in sc.kept
    ensures (exists l :: Involved(sc, l)) <==> exists f :: 0 <= f < sc.frames && OverlapAt(sc, f)
    ensures (exists f :: 0 <= f < sc.frames && OverlapAt(sc, f)) ==> exists a, b :: a != b && Involved(sc, a) && Involved(sc, b)
  {
    forall l | Involved(sc, l)
      ensures l in sc.kept && exists f :: 0 <= f < sc.frames && OverlapAt(sc, f)
    {
      var f, i, j :| Collide(sc, f, i, j) && (sc.kept[i] == l || sc.kept[j] == l);
      assert OverlapAt(sc, f);
    }
    if exists f :: 0 <= f < sc.frames && OverlapAt(sc, f) {
      var f :| 0 <= f < sc.frames && OverlapAt(sc, f);
      var i, j :| Collide(sc, f, i, j);
      assert Involved(sc, sc.kept[i]) && Involved(sc, sc.kept[j]);
    }
  }
}
