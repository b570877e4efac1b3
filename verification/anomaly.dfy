/**
 The acceleration-anomaly and angle-anomaly checks (yolov3_CarAccidents.py,
 lines 199-251). Both look only at the cars that took part in an overlap and
 at windows of frames around the first overlap frame `fo`:

 - the before-window is range(fo - interval, fo - 1), that is the frames
   fo - interval .. fo - 2 (interval - 1 of them); this model clips it at
   frame 0 (see BeforeStart), where the source reads negative indices;
 - the after-window is range(fo, fo + interval - 1), that is the frames
   fo .. fo + interval - 2.

 The angle change of one car comes from a helper of the accident package
 that is not part of this model; it enters as a function parameter.
 */
module Anomaly {
  import opened Wrappers
  import opened Stats
  import opened Cars
  import opened Verdict

  /** Python's range(lo, hi) over indices of `s` stays inside `s` (an empty range always does). */
  predicate Fits(s: seq<real>, lo: int, hi: int)
  {
    hi <= lo || (0 <= lo && hi <= |s|)
  }

  /** The samples at range(lo, hi). */
  function Window(s: seq<real>, lo: int, hi: int): (w: seq<real>)
    requires Fits(s, lo, hi)
    ensures |w| == if hi <= lo then 0 else hi - lo
    ensures forall k :: 0 <= k < |w| ==> w[k] == s[lo + k]
  {
    if hi <= lo then [] else s[lo..hi]
  }

  /** Reference value of the running average: the mean of the window, 0 for an empty window. */
  function WindowMean(s: seq<real>, lo: int, hi: int): real
    requires Fits(s, lo, hi)
  {
    var w := Window(s, lo, hi);
    if |w| == 0 then 0.0 else Mean(w)
  }

  /** A maximum seeded with 0, taken over the samples in order. */
  function PeakFromZero(w: seq<real>): real
  {
    if |w| == 0 then 0.0
    else
      var p := PeakFromZero(w[..|w| - 1]);
      if w[|w| - 1] > p then w[|w| - 1] else p
  }

  /** Reference value of the running maximum. */
  function WindowPeak(s: seq<real>, lo: int, hi: int): real
    requires Fits(s, lo, hi)
  {
    PeakFromZero(Window(s, lo, hi))
  }

  /** The zero-seeded maximum is max(0, max of the samples): at least 0, at least every sample, and attained unless it is 0. */
  lemma {:induction false} PeakFromZeroIsMaximum(w: seq<real>)
    ensures PeakFromZero(w) >= 0.0
    ensures forall k :: 0 <= k < |w| ==> w[k] <= PeakFromZero(w)
    ensures PeakFromZero(w) == 0.0 || exists k :: 0 <= k < |w| && w[k] == PeakFromZero(w)
    decreases |w|
  {
    if |w| > 0 {
      var init := w[..|w| - 1];
      PeakFromZeroIsMaximum(init);
      if PeakFromZero(init) != 0.0 && w[|w| - 1] <= PeakFromZero(init) {
        var k :| 0 <= k < |init| && init[k] == PeakFromZero(init);
        assert w[k] == PeakFromZero(w);
      }
    }
  }

  lemma RunningMeanStep(avg: real, x: real, t: int)
    requires t >= 1
    ensures (avg * ((t - 1) as real) / (t as real) + x / (t as real)) * (t as real) == avg * ((t - 1) as real) + x
  {
  }

  lemma MeanFromTotal(avg: real, total: real, n: int)
    requires n >= 1 && avg * (n as real) == total
    ensures avg == total / (n as real)
  {
  }

  lemma WindowGrows(s: seq<real>, lo: int, k: int)
    requires 0 <= lo <= k < |s|
    ensures Sum(s[lo..k + 1]) == Sum(s[lo..k]) + s[k]
  {
    assert s[lo..k + 1][..k - lo] == s[lo..k];
  }

  /**
   The running average of lines 214-218: starting from 0 with t = 1, each
   sample a turns avg into avg * (t - 1) / t + a / t. The result is the
   arithmetic mean of the window, or 0 when the window is empty.
   */
  method RunningAverage(s: seq<real>, lo: int, hi: int) returns (avg: real)
    requires Fits(s, lo, hi)
    ensures avg == WindowMean(s, lo, hi)
    ensures lo < hi ==> avg * ((hi - lo) as real) == Sum(s[lo..hi])
  {
    avg := 0.0;
    var t := 1;
    if lo < hi {
      for frame := lo to hi
        invariant t == frame - lo + 1
        invariant avg * ((t - 1) as real) == Sum(s[lo..frame])
      {
        var a := s[frame];
        RunningMeanStep(avg, a, t);
        WindowGrows(s, lo, frame);
        avg := avg * ((t - 1) as real) / (t as real) + a / (t as real);
        t := t + 1;
      }
      MeanFromTotal(avg, Sum(s[lo..hi]), hi - lo);
      assert Window(s, lo, hi) == s[lo..hi];
    }
  }

  /**
   The running maximum of lines 223-226: starting from 0, a sample replaces
   the maximum when it is strictly greater.
   */
  method RunningMaximum(s: seq<real>, lo: int, hi: int) returns (m: real)
    requires Fits(s, lo, hi)
    ensures m == WindowPeak(s, lo, hi)
    ensures m >= 0.0
    ensures forall f :: lo <= f < hi ==> s[f] <= m
  {
    m := 0.0;
    if lo < hi {
      for frame := lo to hi
        invariant m == PeakFromZero(s[lo..frame])
      {
        assert s[lo..frame + 1][..frame - lo] == s[lo..frame];
        if s[frame] > m {
          m := s[frame];
        }
      }
      assert s[lo..hi] == Window(s, lo, hi);
    }
    PeakFromZeroIsMaximum(Window(s, lo, hi));
    forall f | lo <= f < hi
      ensures s[f] <= m
    {
      assert Window(s, lo, hi)[f - lo] == s[f];
    }
  }

  /**
   Python's `s[i]`: a negative index counts from the end of the list, and an
   index outside -|s| .. |s| - 1 raises IndexError (None).
   */
  function PyIndex(s: seq<real>, i: int): (r: Option<real>)
    ensures r.Some? <==> -|s| <= i < |s|
    ensures 0 <= i < |s| ==> r == Some(s[i])
    ensures -|s| <= i < 0 ==> r == Some(s[|s| + i])
  {
    if 0 <= i < |s| then Some(s[i])
    else if -|s| <= i < 0 then Some(s[|s| + i])
    else None
  }

  /**
   The samples lines 216-217 read, as written: s[f] for f in
   range(fo - interval, fo - 1), or None on an IndexError. The read succeeds
   exactly when the window is empty or all of its indices lie in
   -|s| .. |s| - 1, and then holds, in order, Python's s[fo - interval + k]
   for each of its interval - 1 positions.
   */
  function BeforeSamplesAsWritten(s: seq<real>, fo: int, interval: nat): (r: Option<seq<real>>)
    ensures r.Some? <==> interval <= 1 || (-|s| <= fo - interval && fo - 2 < |s|)
    ensures r.Some? ==> |r.value| == (if interval <= 1 then 0 else interval - 1)
    ensures r.Some? ==> forall k :: 0 <= k < |r.value| ==> PyIndex(s, fo - interval + k) == Some(r.value[k])
    decreases interval
  {
    if interval <= 1 then Some([])
    else
      var rest := BeforeSamplesAsWritten(s, fo, interval - 1);
      var first := PyIndex(s, fo - interval);
      if rest.None? || first.None? then None
      else
        var w := [first.value] + rest.value;
        assert forall k :: 1 <= k < |w| ==> w[k] == rest.value[k - 1];
        Some(w)
  }

  /**
   As written, an overlap at a frame fo below the interval makes the
   before-window start at a negative index, which Python wraps to the end
   of the series: the first sample averaged as "before the overlap" is the
   sample of frame |s| + fo - interval, which is not before fo.
   */
  lemma BeforeWindowWrapsAround(s: seq<real>, fo: int, interval: nat)
    requires 0 <= fo < interval <= |s| && interval >= 2
    ensures BeforeSamplesAsWritten(s, fo, interval).Some?
    ensures BeforeSamplesAsWritten(s, fo, interval).value[0] == s[|s| + fo - interval]
    ensures |s| + fo - interval >= fo
  {
    assert PyIndex(s, fo - interval) == Some(BeforeSamplesAsWritten(s, fo, interval).value[0]);
  }

  /**
   With the script's settings (169 interpolated frames, a 10-frame
   interval), an overlap at frame 3 averages frames 162 .. 168 and 0 .. 1.
   */
  lemma ScriptWindowWraps(s: seq<real>)
    requires |s| == ScriptConfig.Frames()
    ensures BeforeSamplesAsWritten(s, 3, ScriptConfig.interval) == Some(s[162..169] + s[0..2])
  {
    var w := BeforeSamplesAsWritten(s, 3, ScriptConfig.interval).value;
    var expected := s[162..169] + s[0..2];
    forall k | 0 <= k < 9
      ensures w[k] == expected[k]
    {
      assert PyIndex(s, k - 7) == Some(w[k]);
    }
    assert |w| == 9 == |expected|;
    assert w == expected;
  }

  /** First frame of the before-window: fo - interval, clipped at frame 0 so that no index wraps around. */
  function BeforeStart(fo: int, interval: nat): (lo: int)
    ensures lo >= 0 && lo >= fo - interval
    ensures fo - interval >= 0 ==> lo == fo - interval
    ensures fo - interval < 0 ==> lo == 0
  {
    if fo - interval < 0 then 0 else fo - interval
  }

  /** Both windows around frame fo stay inside the series. */
  predicate WindowsFit(s: seq<real>, fo: int, interval: nat)
  {
    Fits(s, BeforeStart(fo, interval), fo - 1) && Fits(s, fo, fo + interval - 1)
  }

  /**
   For an overlap frame inside the series, the windows fit exactly when the
   after-window ends by the last sample: with the script's 169 interpolated
   samples and interval 10, an overlap at frames 161 .. 168 runs past the end.
   */
  lemma WindowsFitInside(s: seq<real>, fo: int, interval: nat)
    requires 0 <= fo <= |s| && interval >= 1
    ensures WindowsFit(s, fo, interval) <==> fo + interval - 1 <= |s|
  {
  }

  /**
   The samples the before-window averages: those of the frames from
   BeforeStart up to fo - 2, all of them strictly before the overlap frame;
   when no clipping happens, exactly the interval - 1 frames the source
   names, and when it does, every frame 0 .. fo - 2.
   */
  function BeforeWindow(s: seq<real>, fo: int, interval: nat): (w: seq<real>)
    requires WindowsFit(s, fo, interval)
    ensures forall k :: 0 <= k < |w| ==> 0 <= BeforeStart(fo, interval) + k < fo - 1 && w[k] == s[BeforeStart(fo, interval) + k]
    ensures fo - interval >= 0 && interval >= 1 ==> |w| == interval - 1
    ensures fo - interval < 0 ==> w == if fo <= 1 then [] else s[..fo - 1]
  {
    Window(s, BeforeStart(fo, interval), fo - 1)
  }

  /** The windows of every listed car stay inside its acceleration series. */
  predicate AccelerationWindowsFit(cars: CarTable, labels: seq<Label>, fo: int, interval: nat)
  {
    forall k :: 0 <= k < |labels| ==> labels[k] in cars && WindowsFit(cars[labels[k]].series.acceleration, fo, interval)
  }

  /** One car's acceleration jump: its peak after fo minus its mean before fo. */
  function Jump(c: CarData, fo: int, interval: nat): real
    requires WindowsFit(c.series.acceleration, fo, interval)
  {
    AfterPeak(c, fo, interval) - BeforeMean(c, fo, interval)
  }

  /** Jump as a total function of the label (0 where it is undefined). */
  function JumpOf(cars: CarTable, fo: int, interval: nat): Label -> real
  {
    l => if l in cars && WindowsFit(cars[l].series.acceleration, fo, interval) then Jump(cars[l], fo, interval) else 0.0
  }

  lemma JumpAt(cars: CarTable, labels: seq<Label>, fo: int, interval: nat, k: int)
    requires AccelerationWindowsFit(cars, labels, fo, interval)
    requires 0 <= k < |labels|
    ensures JumpOf(cars, fo, interval)(labels[k]) == Jump(cars[labels[k]], fo, interval)
  {
  }

  /** The mean jump over the listed cars, as np.mean computes it on a non-empty list. */
  function MeanJump(cars: CarTable, labels: seq<Label>, fo: int, interval: nat): real
    requires |labels| > 0
  {
    Mean(MapSeq(labels, JumpOf(cars, fo, interval)))
  }

  /** The running average over the before-window range(fo - interval, fo - 1), clipped at frame 0. */
  function BeforeMean(c: CarData, fo: int, interval: nat): real
    requires WindowsFit(c.series.acceleration, fo, interval)
  {
    WindowMean(c.series.acceleration, BeforeStart(fo, interval), fo - 1)
  }

  /** The after-window of the source: range(fo, fo + interval - 1). */
  function AfterPeak(c: CarData, fo: int, interval: nat): real
    requires WindowsFit(c.series.acceleration, fo, interval)
  {
    WindowPeak(c.series.acceleration, fo, fo + interval - 1)
  }

  /** Lines 212-219: `acc_average`, one running average per listed car, in list order. */
  method BeforeAverages(cars: CarTable, potential: seq<Label>, fo: int, interval: nat)
    returns (averages: seq<real>)
    requires AccelerationWindowsFit(cars, potential, fo, interval)
    ensures |averages| == |potential|
    ensures forall k :: 0 <= k < |potential| ==> averages[k] == BeforeMean(cars[potential[k]], fo, interval)
  {
    averages := [];
    for i := 0 to |potential|
      invariant |averages| == i
      invariant forall k :: 0 <= k < i ==> averages[k] == BeforeMean(cars[potential[k]], fo, interval)
    {
      var avg := RunningAverage(cars[potential[i]].series.acceleration, BeforeStart(fo, interval), fo - 1);
      averages := averages + [avg];
    }
  }

  /** Lines 220-227: `acc_maximum`, one running maximum per listed car, in list order. */
  method AfterMaxima(cars: CarTable, potential: seq<Label>, fo: int, interval: nat)
    returns (maxima: seq<real>)
    requires AccelerationWindowsFit(cars, potential, fo, interval)
    ensures |maxima| == |potential|
    ensures forall k :: 0 <= k < |potential| ==> maxima[k] == AfterPeak(cars[potential[k]], fo, interval)
  {
    maxima := [];
    for i := 0 to |potential|
      invariant |maxima| == i
      invariant forall k :: 0 <= k < i ==> maxima[k] == AfterPeak(cars[potential[k]], fo, interval)
    {
      var m := RunningMaximum(cars[potential[i]].series.acceleration, fo, fo + interval - 1);
      maxima := maxima + [m];
    }
  }

  lemma DifferencesAreJumps(cars: CarTable, potential: seq<Label>, fo: int, interval: nat,
                            averages: seq<real>, maxima: seq<real>, diffs: seq<real>)
    requires AccelerationWindowsFit(cars, potential, fo, interval)
    requires |averages| == |maxima| == |diffs| == |potential|
    requires forall k :: 0 <= k < |potential| ==> averages[k] == BeforeMean(cars[potential[k]], fo, interval)
    requires forall k :: 0 <= k < |potential| ==> maxima[k] == AfterPeak(cars[potential[k]], fo, interval)
    requires forall k :: 0 <= k < |potential| ==> diffs[k] == maxima[k] - averages[k]
    ensures diffs == MapSeq(potential, JumpOf(cars, fo, interval))
  {
    forall k | 0 <= k < |potential|
      ensures diffs[k] == JumpOf(cars, fo, interval)(potential[k])
    {
      JumpAt(cars, potential, fo, interval, k);
    }
  }

  /**
   Lines 210-234: the before-window running averages and after-window
   running maxima of every listed car, the mean of their differences, and
   its comparison with T_acc. The mean of an empty list is NaN (None here),
   which compares false.
   */
  method AccelerationCheck(cars: CarTable, potential: seq<Label>, fo: int, interval: nat, tAcc: real)
    returns (diff: Option<real>, e: Evidence)
    requires AccelerationWindowsFit(cars, potential, fo, interval)
    ensures diff.None? <==> |potential| == 0
    ensures diff.Some? ==> diff.value == MeanJump(cars, potential, fo, interval)
    ensures e.Strong? <==> diff.Some? && diff.value >= tAcc
  {
    var averages := BeforeAverages(cars, potential, fo, interval);
    var maxima := AfterMaxima(cars, potential, fo, interval);
    var diffs := seq(|potential|, k requires 0 <= k < |potential| => maxima[k] - averages[k]);
    if |diffs| == 0 {
      diff := None;
    } else {
      DifferencesAreJumps(cars, potential, fo, interval, averages, maxima, diffs);
      diff := Some(Mean(diffs));
    }
    e := EvidenceIf(diff.Some? && diff.value >= tAcc);
  }

  /** The mean jump does not depend on the order in which the overlapped cars are listed. */
  lemma MeanJumpOrderFree(cars: CarTable, p: seq<Label>, q: seq<Label>, fo: int, interval: nat)
    requires |p| > 0
    requires NoDup(p) && NoDup(q)
    requires forall i :: 0 <= i < |p| ==> p[i] in q
    requires forall i :: 0 <= i < |q| ==> q[i] in p
    ensures |q| > 0 && MeanJump(cars, p, fo, interval) == MeanJump(cars, q, fo, interval)
  {
    SameElementsPermutation(p, q);
    assert |q| == |multiset(q)| == |multiset(p)| == |p|;
    SumMapPermutation(p, q, JumpOf(cars, fo, interval));
  }

  /** `check_angle_anomaly(angles, frame_overlapped, interval)`. */
  type AngleChange = (seq<real>, int, nat) -> real

  /**
   Lines 237-251: the angle change of every listed car, and the comparison
   of their maximum with the trajectory threshold; an empty list is
   inconclusive.
   */
  method AngleCheck(cars: CarTable, potential: seq<Label>, fo: int, interval: nat, threshold: real, change: AngleChange)
    returns (changes: seq<real>, e: Evidence)
    requires forall k :: 0 <= k < |potential| ==> potential[k] in cars
    ensures |changes| == |potential|
    ensures forall k :: 0 <= k < |potential| ==> changes[k] == change(cars[potential[k]].series.angle, fo, interval)
    ensures e.Strong? <==> exists k :: 0 <= k < |potential| && change(cars[potential[k]].series.angle, fo, interval) >= threshold
  {
    changes := [];
    for i := 0 to |potential|
      invariant |changes| == i
      invariant forall k :: 0 <= k < i ==> changes[k] == change(cars[potential[k]].series.angle, fo, interval)
    {
      changes := changes + [change(cars[potential[i]].series.angle, fo, interval)];
    }
    if |changes| > 0 {
      MaxOfAtLeast(changes, threshold);
      e := EvidenceIf(MaxOf(changes) >= threshold);
    } else {
      e := Weak;
    }
  }
}
