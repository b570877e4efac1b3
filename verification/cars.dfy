/**
 The per-car data the detection stage works on, and the tunable constants
 of the batch script (yolov3_CarAccidents.py, lines 24-39).

 A car is identified by the integer label the tracker gave it. After the
 tracking and filtering steps every car carries a record of parallel series
 (one entry per frame of its path) plus the length of its bounding-box
 diagonal; these records are the input of the detection stage.
 */
module Cars {

  /** Tracker label of a car; the source compares labels through `int(...)`. */
  type Label = int

  datatype Point = Point(x: real, y: real)

  /** The per-frame series stored for one car under the keys x, y, time, angle, velocity, acceleration. */
  datatype Series = Series(
    x: seq<real>,
    y: seq<real>,
    time: seq<real>,
    angle: seq<real>,
    velocity: seq<real>,
    acceleration: seq<real>)

  /** One entry of the per-folder car table: its series and its bounding-box diagonal. */
  datatype CarData = CarData(series: Series, diagonal: real)

  /** The per-folder car table, keyed by label. */
  type CarTable = map<Label, CarData>

  /** Centre of the car at frame f. */
  function PositionAt(c: CarData, f: nat): Point
    requires f < |c.series.x| && f < |c.series.y|
  {
    Point(c.series.x[f], c.series.y[f])
  }

  /** The tunable constants of the detection stage. */
  datatype Config = Config(
    frameStart: int,          // first image index read from a folder
    frameEnd: int,            // one past the last image index read
    tVar: real,               // variance of the radial distance below which a car counts as parked
    kOverlap: real,           // ratio handed to the overlap test
    interval: nat,            // half-width of the acceleration/angle windows around the overlap frame
    tAcc: real,               // acceleration-anomaly threshold
    trajectoryThreshold: real // angle-anomaly threshold
  )
  {
    /** Number of frames scanned for overlaps and the length requested from interpolation. */
    function Frames(): int
    {
      frameEnd - frameStart
    }
  }

  /** The values the script sets (angle_threshold and the YOLO parameters play no part in detection). */
  const ScriptConfig: Config := Config(1, 170, 200.0, 0.3, 10, 1.0, 0.1)
}
