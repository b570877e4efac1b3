/**
 The composite decision (yolov3_CarAccidents.py, lines 178 and 253-255).
 Each of the three checks ends as 0.5 (inconclusive) or 1.0 (evidence of an
 accident); the folder is declared an accident when the three add up to at
 least 1.99.
 */
module Verdict {

  /** The two values a check can end with. */
  datatype Evidence = Weak | Strong
  {
    /** The number the source stores in `checks`. */
    function Value(): real
    {
      if Strong? then 1.0 else 0.5
    }
  }

  /** The source's `if cond: checks[k] = 1 else: checks[k] = 0.5`. */
  function EvidenceIf(strong: bool): (e: Evidence)
    ensures e.Strong? <==> strong
  {
    if strong then Strong else Weak
  }

  /** `checks[0]`, `checks[1]`, `checks[2]`: overlap, acceleration anomaly, angle anomaly. */
  datatype Checks = Checks(overlap: Evidence, acceleration: Evidence, angle: Evidence)

  /** The decision threshold on the summed score. */
  const AccidentThreshold: real := 1.99

  /** Number of strong checks. */
  function StrongCount(c: Checks): nat
  {
    (if c.overlap.Strong? then 1 else 0) + (if c.acceleration.Strong? then 1 else 0) + (if c.angle.Strong? then 1 else 0)
  }

  /** The summed score: 1.5 plus one half per strong check, so one of 1.5, 2.0, 2.5 and 3.0. */
  function Score(c: Checks): (s: real)
    ensures s == 1.5 + 0.5 * (StrongCount(c) as real)
    ensures s == 1.5 || s == 2.0 || s == 2.5 || s == 3.0
  {
    c.overlap.Value() + c.acceleration.Value() + c.angle.Value()
  }

  /** The verdict: an accident is declared exactly when at least one check is strong. */
  function IsAccident(c: Checks): (r: bool)
    ensures r <==> c.overlap.Strong? || c.acceleration.Strong? || c.angle.Strong?
    ensures r <==> StrongCount(c) >= 1
  {
    Score(c) >= AccidentThreshold
  }

  /** `e` is at least as strong as `d`. */
  predicate AtLeast(e: Evidence, d: Evidence)
  {
    d.Strong? ==> e.Strong?
  }

  /** Strengthening any check never lowers the score and never withdraws a declared accident. */
  lemma StrongerChecksKeepAccident(c: Checks, c': Checks)
    requires AtLeast(c'.overlap, c.overlap) && AtLeast(c'.acceleration, c.acceleration) && AtLeast(c'.angle, c.angle)
    ensures Score(c') >= Score(c)
    ensures IsAccident(c) ==> IsAccident(c')
  {
  }

  /** With every check inconclusive the score is 1.5 and no accident is declared. */
  lemma AllWeakNoAccident(c: Checks)
    requires c.overlap.Weak? && c.acceleration.Weak? && c.angle.Weak?
    ensures Score(c) == 1.5 && !IsAccident(c)
  {
  }
}
