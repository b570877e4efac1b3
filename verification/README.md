# Accident decision stage of the YOLOv3 car-accident detector

This project models, in Dafny, the detection part of the per-folder batch in
`yolov3_CarAccidents.py`. For every folder of video frames, the script has a
table of tracked cars. Each car has a label, per-frame series (x, y, time,
angle, velocity, acceleration) and a bounding-box diagonal. From that table it
decides whether an accident happened:

1. **Stationary filter** (`Stationary`). A car is deleted from the table when
   the variance of its radial distance sqrt(x² + y²) is below `T_var`. The
   other cars are listed, in their original order, as the cars to analyse.
2. **Interpolation gate** (`Interpolation`). Every listed car is interpolated
   to dense series. If any interpolation reports an error, the whole folder
   is skipped.
3. **Overlap scan** (`Overlap`). For every frame and every ordered pair of
   distinct listed cars, the overlap test decides whether the pair overlaps.
   Both cars of an overlapping pair join `overlapped`. The first frame with
   any overlap becomes `frame_overlapped`.
4. **Acceleration anomaly** (`Anomaly`). For each overlapped car, the
   check takes:
   - a running mean of acceleration over the before-window
     `range(fo - interval, fo - 1)`. When fo < interval, the window is
     clipped at frame 0; see "## Findings";
   - a zero-seeded running maximum over the after-window
     `range(fo, fo + interval - 1)`.

   It then averages (maximum − mean) over the cars and compares the result
   with `T_acc`.
5. **Angle anomaly** (`Anomaly`). This is the maximum of the per-car angle
   changes, compared with `trajectory_thresold`. An empty list is
   inconclusive.
6. **Verdict** (`Verdict`). Each check is 0.5 (inconclusive) or 1.0
   (strong). An accident is declared when the sum is at least 1.99.

`Detection.DetectFolder` chains these steps for one folder. `Cars` holds the
data model and the script's constants (lines 24-39), and `Stats` holds sums,
means, numpy's population variance and maxima.

The model makes these choices:
- **Helpers as parameters.** The stage calls helpers whose bodies are not part
  of this model: `check_overlap`, `check_angle_anomaly`, `Path.interpolate`
  and the square root of the radial distance. They enter as function-valued
  parameters. The overlap test is not assumed to be symmetric.
- **NaN handling.** numpy returns NaN for the variance of an empty array and
  for the mean of an empty list. Every comparison with NaN is false. Both are
  modelled with `Option`:
  - a car with no samples is never deleted as parked;
  - an empty overlapped list gives an inconclusive acceleration check.
- **The carried frame.** `frame_overlapped` belongs to the folder loop. A
  folder without any overlap therefore uses the value an earlier folder left
  behind. If no earlier folder set it, the script stops on an unbound name.
  The stage takes the carried value as `carried` and returns the value it
  leaves. `Unbound` is the outcome where the script would stop.
- **The verdict.** With 0.5 as the weak value, any single strong check gives
  a score of 2.0, which is at least 1.99. So the script declares an accident
  exactly when it finds an overlap. `DetectFolder` proves this. The anomaly
  checks never change the verdict.

Three points of the code are easy to misread. The model follows the code
in each:
- **Interpolation failure.** One car whose interpolation fails skips the
  whole folder. The car is not merely dropped.
- **Pairs.** Ordered pairs are visited, so each unordered pair is tested
  twice. The overlap test is given its arguments in both orders and need not
  agree with itself.
- **Threshold.** The 1.99 threshold is reached by one strong check alone.

## Model

| member | source | states |
|---|---|---|
| Stationary.Radii | yolov3_CarAccidents.py:155 | the radial-distance series has one entry per frame, the norm of that frame's centre |
| Stationary.DropParked | yolov3_CarAccidents.py:151-158 | the labels kept are the reference list of moving labels, and the table loses exactly the parked cars, with every other entry unchanged |
| Stationary.MovingLabelsMembers | yolov3_CarAccidents.py:153-158 | a label is kept if and only if it is an input label whose car is not parked |
| Stationary.MovingLabelsInOrder | yolov3_CarAccidents.py:152-158 | the kept labels are a subsequence of the input labels (original order preserved) |
| Stationary.MovingLabelsNoDup | yolov3_CarAccidents.py:152-158 | distinct input labels give distinct kept labels |
| Stationary.ParkedCarDropped | yolov3_CarAccidents.py:155-156 | a car whose centre never moves has variance 0 and is deleted for any positive T_var |
| Stationary.ParkedMeans | yolov3_CarAccidents.py:155 | the `< T_var` test of a car with samples holds exactly when the sum of squared deviations of its radial distance from their mean is below T_var times the number of samples (population variance below T_var); a car without samples is never parked |
| Stationary.UnobservedCarKept | yolov3_CarAccidents.py:155-158 | a car with no samples (NaN variance) is never deleted |
| Stats.Variance | yolov3_CarAccidents.py:155 | numpy's variance is undefined (NaN) exactly for an empty series |
| Stats.VarianceNonNegative | yolov3_CarAccidents.py:155 | the population variance, where defined, is never negative |
| Stats.ConstantVarianceZero | yolov3_CarAccidents.py:155 | a constant non-empty series has variance 0 |
| Interpolation.Refill | yolov3_CarAccidents.py:170-175 | a successful interpolation replaces all six series of a car and keeps its diagonal |
| Interpolation.ApplyInterpolation | yolov3_CarAccidents.py:164-177 | the folder is skipped if and only if some kept car's interpolation fails; otherwise every kept car gets its interpolated series, the table keeps its keys, and every other car is unchanged |
| Overlap.ScanOverlaps | yolov3_CarAccidents.py:181-192 | a label is in overlapped if and only if it is one of the two cars of an ordered pair of distinct kept cars that overlaps at some scanned frame; the recorded frame is absent exactly when no frame has an overlap, and otherwise it is the smallest frame with one |
| Overlap.ScanFrame | yolov3_CarAccidents.py:185-192 | the pass over first cars at one frame adds exactly that frame's marks and carries the recorded frame forward |
| Overlap.ScanRow | yolov3_CarAccidents.py:186-192 | the pass over second cars against one first car adds exactly that row's marks and carries the recorded frame forward |
| Overlap.ScanMarksMembers | yolov3_CarAccidents.py:184-189 | after visiting frames 0 .. f-1, the marked cars are exactly those involved in an overlap at one of those frames |
| Overlap.FirstMarkIsFirst | yolov3_CarAccidents.py:190-192 | the frame the scan records is the earliest frame at which some pair overlaps, and none is recorded when there is no such frame |
| Overlap.FrameHitIsOverlap | yolov3_CarAccidents.py:185-187 | a full pass over the pairs of a frame finds an overlap if and only if one exists at that frame |
| Overlap.InvolvedCars | yolov3_CarAccidents.py:186-189 | only kept cars are involved; some car is involved if and only if some frame has an overlap, and then two distinct cars are involved |
| Anomaly.RunningAverage | yolov3_CarAccidents.py:214-218 | the recurrence avg·(t−1)/t + a/t started at 0 ends at the arithmetic mean of the window (0 for an empty window); avg times the window length is the window's sum |
| Anomaly.PeakFromZeroIsMaximum | yolov3_CarAccidents.py:223-226 | the zero-seeded maximum is at least 0 and at least every sample, and is a sample unless it is 0 |
| Anomaly.RunningMaximum | yolov3_CarAccidents.py:220-227 | the running maximum is max(0, every sample of the after-window): at least 0 and at least every sample in the window |
| Anomaly.PyIndex | yolov3_CarAccidents.py:217 | Python's list indexing: defined exactly for -len .. len-1, with negative indices counting from the end |
| Anomaly.BeforeSamplesAsWritten | yolov3_CarAccidents.py:210-217 | the samples the before-window reads as written are all readable exactly when the window is empty or its indices fo − interval .. fo − 2 all lie in −len .. len − 1 (otherwise IndexError); it then holds interval − 1 samples, the k-th being Python's s[fo − interval + k] |
| Anomaly.BeforeWindowWrapsAround | yolov3_CarAccidents.py:210-217 | as written, for fo < interval, the first sample averaged as "before the overlap" comes from frame len + fo − interval, which is not before fo |
| Anomaly.ScriptWindowWraps | yolov3_CarAccidents.py:210-217 | with the script's settings (169 frames, interval 10), an overlap at frame 3 averages frames 162 .. 168 and 0 .. 1 |
| Anomaly.BeforeStart | yolov3_CarAccidents.py:210 | the corrected before-window starts at fo − interval when that is a frame, and at frame 0 when fo < interval |
| Anomaly.WindowsFitInside | yolov3_CarAccidents.py:210-226 | for an overlap frame inside the series, the two windows are readable exactly when the after-window range(fo, fo + interval − 1) ends by the last sample, so an overlap in the last interval − 2 frames raises IndexError |
| Anomaly.BeforeWindow | yolov3_CarAccidents.py:210-219 | every sample the corrected before-window averages belongs to a frame strictly before the overlap frame; without clipping there are interval − 1 of them, and with clipping the window is exactly frames 0 .. fo − 2 |
| Anomaly.BeforeAverages | yolov3_CarAccidents.py:212-219 | acc_average has one entry per listed car, the mean of that car's before-window |
| Anomaly.AfterMaxima | yolov3_CarAccidents.py:220-227 | acc_maximum has one entry per listed car, the zero-seeded peak of that car's after-window |
| Anomaly.AccelerationCheck | yolov3_CarAccidents.py:229-234 | the difference is undefined (NaN) exactly for an empty list; otherwise it is the mean over the listed cars of (after-peak − before-mean); the check is strong if and only if that mean is defined and at least T_acc |
| Anomaly.MeanJumpOrderFree | yolov3_CarAccidents.py:199-229 | two duplicate-free listings of the same cars give the same mean jump |
| Anomaly.AngleCheck | yolov3_CarAccidents.py:237-251 | one angle change per listed car, in list order; the check is strong if and only if some listed car's change reaches the threshold (an empty list is weak) |
| Stats.MaxOfAtLeast | yolov3_CarAccidents.py:244-246 | the maximum of a non-empty list reaches a threshold if and only if some element does |
| Verdict.EvidenceIf | yolov3_CarAccidents.py:193-198 | a check is strong exactly when its condition holds |
| Verdict.Score | yolov3_CarAccidents.py:254-255 | the score is 1.5 plus 0.5 per strong check, so one of 1.5, 2.0, 2.5, 3.0 |
| Verdict.IsAccident | yolov3_CarAccidents.py:255 | an accident is declared if and only if at least one check is strong |
| Verdict.StrongerChecksKeepAccident | yolov3_CarAccidents.py:255 | strengthening any check never lowers the score and never withdraws a declared accident |
| Verdict.AllWeakNoAccident | yolov3_CarAccidents.py:178-255 | with all three checks inconclusive the score is 1.5 and no accident is declared |
| Detection.Enumerate | yolov3_CarAccidents.py:199 | the list of overlapped labels holds every element of the set exactly once |
| Detection.Prepare | yolov3_CarAccidents.py:151-177 | the folder is skipped if and only if some kept car fails to interpolate; otherwise the scene is the filtered, interpolated table with the kept labels, and every kept car has a position at every scanned frame |
| Detection.Assess | yolov3_CarAccidents.py:199-255 | given the overlap frame, the outcome is OutOfWindow exactly when some overlapped car's window leaves its acceleration series (the IndexError of lines 217 and 225), and it names such a car; otherwise the three checks are scored: overlap as observed, acceleration and angle as properties of the overlapped set |
| Detection.DetectFolder | yolov3_CarAccidents.py:151-255 | the whole stage: skipped exactly on an interpolation failure; unbound exactly when there is no overlap and no carried frame; OutOfWindow exactly when, at the first overlap frame, some involved car's window leaves its acceleration series, and then its frame is that first overlap frame; a scored folder has every involved car's windows inside its series; otherwise the overlapped set is the set of involved cars, the frame is the first overlap frame (or the carried one when there is none), each anomaly check is strong exactly when its set-level condition holds, an accident is declared exactly when some frame has an overlap, and the frame is carried on |
| Detection.NothingInvolved | yolov3_CarAccidents.py:181-199 | with no overlap at any frame the overlapped set is empty |
| Detection.AccelerationIsOrderFree | yolov3_CarAccidents.py:199-234 | the acceleration check on one listing of the overlapped set agrees with the mean jump of every listing of it |
| Detection.AngleIsSetWide | yolov3_CarAccidents.py:237-251 | the angle check on one listing is strong exactly when some car of the overlapped set has an angle change at or above the threshold |

## Left out

- YOLO detection, OpenCV image reading, display and drawing, and the saving of images (lines 54-56, 78-110, 256-261). These are image I/O and UI. The images_saved list is not modelled.
- Timing, FPS printing, the progress prints and all matplotlib plotting (lines 100-101, 194-197, 245, 254, 264-329). They are output only.
- Tracking and smoothing: `BuildAndUpdate`, `filter_data`, `plot_paths` and the computation of the per-car series and diagonals (lines 111-140). The detection stage takes the per-car table as input.
- `Path.interpolate`, `check_overlap`, `check_angle_anomaly` and the square root: their source is not part of this model. They are function parameters (`Interpolator`, `OverlapTest`, `AngleChange`, `Norm`), and nothing is assumed about them except that a successful interpolation covers the scanned frames (`DenseInterpolation`).
- Floating point: all arithmetic is on Dafny reals. Rounding, infinities and NaN (other than the two NaN cases above) are not modelled.
- Stationary.DropParked: requires distinct labels, because the labels are the keys of a dictionary. It also requires paired x and y series. With series of different lengths numpy would broadcast or raise; that case is not modelled.
- Anomaly.BeforeAverages: when fo < interval it averages the clipped window (frames 0 .. fo − 2), not the wrapped indices the source reads. This is the corrected behaviour of "## Findings". For fo ≥ interval it is the source's window.
- Anomaly.AccelerationCheck: its before-means are the clipped ones. So when fo < interval, `acc_diff` and `checks[1]` can differ from the source as written. For fo ≥ interval they agree.
- Detection.Assess: the acceleration evidence uses the clipped before-window when fo < interval, as above. The clipping also removes one IndexError of the source: when fo − interval < −len, as with fo = 0 and a series of interval − 1 samples, the source raises and the model scores the folder.
- Detection.DetectFolder: the acceleration evidence uses the clipped before-window when fo < interval, as for Assess. The verdict does not depend on it, because it is decided by the overlap alone.
- Detection.DetectFolder: where the source raises IndexError (a window past the end of a car's acceleration series), the model returns the `OutOfWindow` outcome instead. The model does not say which exception or line is reached.
- Detection.Enumerate: the set's iteration order is not modelled. The listing follows the kept-label order. `AccelerationIsOrderFree` and `AngleIsSetWide` show that the checks do not depend on that order.
- Anomaly.AngleCheck: the printed maximum angle change (line 245) is not returned. The check is stated through the threshold comparison alone.

## Findings

| source | as written | input that shows it | evidently intended | confidence | as-written member | corrected member |
|---|---|---|---|---|---|---|
| yolov3_CarAccidents.py:210-217 | the before-window `range(frame_overlapped - interval, frame_overlapped - 1)` starts at a negative index when the first overlap is at a frame below `interval`; Python wraps negative indices to the end of the series, so the running "average before the overlap" mixes in samples from the end of the clip | 169 interpolated frames, interval 10, first overlap at frame 3: the samples averaged are those of frames 162 .. 168 and 0 .. 1 | only frames before the overlap are averaged: the window is clipped at frame 0 | medium; not executed | Anomaly.ScriptWindowWraps | Anomaly.BeforeWindow |
