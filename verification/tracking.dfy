/**
 * Vehicle observations as the external detector/tracker reports them, and the
 * small pieces of geometry the analytics engine derives from them.
 */
module Tracking {

  /** Opaque identifier the tracker keeps stable for one physical vehicle. */
  type VehicleId = int

  /** One observation `(x1, y1, x2, y2, vid)` in integer pixel coordinates. */
  datatype Box = Box(x1: int, y1: int, x2: int, y2: int, vid: VehicleId)

  /** A pixel position. */
  datatype Point = Point(x: int, y: int)

  /** A box whose corners are in order, as the tracker promises. */
  predicate WellFormed(b: Box) {
    b.x1 <= b.x2 && b.y1 <= b.y2
  }

  /**
   * The centre of a box with each coordinate rounded down, as Python's `//`
   * does (for the divisor 2, Dafny's Euclidean `/` rounds down as well).
   */
  function Centroid(b: Box): (c: Point)
    ensures 2 * c.x <= b.x1 + b.x2 < 2 * c.x + 2
    ensures 2 * c.y <= b.y1 + b.y2 < 2 * c.y + 2
  {
    Point((b.x1 + b.x2) / 2, (b.y1 + b.y2) / 2)
  }

  /** Pixel area of a box; never negative for a well-formed box. */
  function Area(b: Box): (a: int)
    ensures WellFormed(b) ==> a >= 0
  {
    (b.x2 - b.x1) * (b.y2 - b.y1)
  }

  /** Absolute value of an integer. */
  function Abs(n: int): (r: nat)
    ensures r == n || r == -n
  {
    if n < 0 then -n else n
  }

  /** A dictionary lookup with a default, `speed_map.get(vid, default)`. */
  function SpeedOr(speedMap: map<VehicleId, real>, vid: VehicleId, default: real): (s: real)
    ensures vid in speedMap ==> s == speedMap[vid]
    ensures vid !in speedMap ==> s == default
  {
    if vid in speedMap then speedMap[vid] else default
  }

  /** No two boxes of the frame carry the same vehicle id. */
  predicate DistinctIds(boxes: seq<Box>) {
    forall i, j :: 0 <= i < j < |boxes| ==> boxes[i].vid != boxes[j].vid
  }

  /** The vehicle ids that occur in a frame. */
  function Ids(boxes: seq<Box>): set<VehicleId>
    decreases |boxes|
  {
    if boxes == [] then {} else Ids(boxes[..|boxes| - 1]) + {boxes[|boxes| - 1].vid}
  }

  /** An id occurs in a frame exactly when some box of the frame carries it. */
  lemma {:induction false} IdsOccur(boxes: seq<Box>, v: VehicleId)
    ensures v in Ids(boxes) <==> exists k :: 0 <= k < |boxes| && boxes[k].vid == v
    decreases |boxes|
  {
    if boxes != [] {
      var n := |boxes| - 1;
      IdsOccur(boxes[..n], v);
      if exists k :: 0 <= k < |boxes| && boxes[k].vid == v {
        var k :| 0 <= k < |boxes| && boxes[k].vid == v;
        if k < n {
          assert boxes[..n][k] == boxes[k];
        }
      }
    }
  }
}
