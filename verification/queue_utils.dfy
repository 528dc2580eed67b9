/**
 * Queue metrics for one frame: how many distinct vehicles stand still
 * upstream of the stop line, and what fraction of the region above the stop
 * line their boxes cover.
 */
module QueueUtils {
  import opened Tracking

  /** Below this speed (pixels per second) a vehicle counts as stopped. */
  const QUEUE_STOPPED_SPEED: real := 3.0
  /** The speed assumed for a vehicle that has no entry in the speed map. */
  const MISSING_SPEED: real := 999.0

  /** `b` is upstream of the stop line and its speed is below the stopped threshold. */
  predicate Queued(b: Box, speedMap: map<VehicleId, real>, stopLineY: int) {
    b.y2 < stopLineY && SpeedOr(speedMap, b.vid, MISSING_SPEED) < QUEUE_STOPPED_SPEED
  }

  /** The ids collected by the loop over `boxes`. */
  function StoppedIds(boxes: seq<Box>, speedMap: map<VehicleId, real>, stopLineY: int): set<VehicleId>
    decreases |boxes|
  {
    if boxes == [] then {}
    else
      var n := |boxes| - 1;
      var before := StoppedIds(boxes[..n], speedMap, stopLineY);
      if Queued(boxes[n], speedMap, stopLineY) then before + {boxes[n].vid} else before
  }

  /** The area accumulated by the loop over `boxes`, one term per queued box. */
  function OccupiedArea(boxes: seq<Box>, speedMap: map<VehicleId, real>, stopLineY: int): int
    decreases |boxes|
  {
    if boxes == [] then 0
    else
      var n := |boxes| - 1;
      var before := OccupiedArea(boxes[..n], speedMap, stopLineY);
      if Queued(boxes[n], speedMap, stopLineY) then before + Area(boxes[n]) else before
  }

  /**
   * Occupied fraction of the region of interest: capped at 1, and 0 when the
   * region has no positive area. Only the upper end is clamped.
   */
  function Density(occupiedArea: int, roiArea: int): (d: real)
    ensures d <= 1.0
    ensures roiArea <= 0 ==> d == 0.0
    ensures roiArea > 0 && occupiedArea >= 0 ==> 0.0 <= d
    ensures roiArea > 0 && occupiedArea <= roiArea ==> d * roiArea as real == occupiedArea as real
    ensures roiArea > 0 && occupiedArea >= roiArea ==> d == 1.0
  {
    if roiArea > 0 then
      var ratio := occupiedArea as real / roiArea as real;
      if ratio < 1.0 then ratio else 1.0
    else 0.0
  }

  /**
   * One pass over the tracked boxes gathering the stopped vehicles upstream
   * of the stop line; returns their number and the density of their boxes.
   */
  method GetQueueMetrics(trackedBoxes: seq<Box>, speedMap: map<VehicleId, real>, stopLineY: int, frameWidth: int)
    returns (queueLength: nat, queueDensity: real)
    ensures queueLength == |StoppedIds(trackedBoxes, speedMap, stopLineY)|
    ensures queueDensity == Density(OccupiedArea(trackedBoxes, speedMap, stopLineY), stopLineY * frameWidth)
    ensures queueLength <= |trackedBoxes|
    ensures queueDensity <= 1.0
    ensures stopLineY * frameWidth <= 0 ==> queueDensity == 0.0
  {
    var stoppedIds: set<VehicleId> := {};
    var occupiedArea := 0;
    for i := 0 to |trackedBoxes|
      invariant stoppedIds == StoppedIds(trackedBoxes[..i], speedMap, stopLineY)
      invariant occupiedArea == OccupiedArea(trackedBoxes[..i], speedMap, stopLineY)
    {
      var b := trackedBoxes[i];
      var speed := SpeedOr(speedMap, b.vid, MISSING_SPEED);
      if b.y2 < stopLineY && speed < QUEUE_STOPPED_SPEED {
        stoppedIds := stoppedIds + {b.vid};
        occupiedArea := occupiedArea + (b.x2 - b.x1) * (b.y2 - b.y1);
      }
      assert trackedBoxes[..i + 1][..i] == trackedBoxes[..i];
    }
    assert trackedBoxes[..|trackedBoxes|] == trackedBoxes;
    queueLength := |stoppedIds|;
    QueueLengthAtMostBoxes(trackedBoxes, speedMap, stopLineY);
    var roiArea := stopLineY * frameWidth;
    queueDensity := if roiArea > 0 then
                      (if occupiedArea as real / roiArea as real < 1.0 then occupiedArea as real / roiArea as real else 1.0)
                    else 0.0;
  }

  /** A vehicle is in the queue exactly when one of its boxes is queued. */
  lemma {:induction false} StoppedIdsAreQueuedVehicles(boxes: seq<Box>, speedMap: map<VehicleId, real>, stopLineY: int, v: VehicleId)
    ensures v in StoppedIds(boxes, speedMap, stopLineY) <==>
            exists k :: 0 <= k < |boxes| && boxes[k].vid == v && Queued(boxes[k], speedMap, stopLineY)
    decreases |boxes|
  {
    if boxes != [] {
      var n := |boxes| - 1;
      StoppedIdsAreQueuedVehicles(boxes[..n], speedMap, stopLineY, v);
      if exists k :: 0 <= k < |boxes| && boxes[k].vid == v && Queued(boxes[k], speedMap, stopLineY) {
        var k :| 0 <= k < |boxes| && boxes[k].vid == v && Queued(boxes[k], speedMap, stopLineY);
        if k < n {
          assert boxes[..n][k] == boxes[k];
        }
      }
    }
  }

  /** The queue never holds more vehicles than there are boxes. */
  lemma {:induction false} QueueLengthAtMostBoxes(boxes: seq<Box>, speedMap: map<VehicleId, real>, stopLineY: int)
    ensures |StoppedIds(boxes, speedMap, stopLineY)| <= |boxes|
    decreases |boxes|
  {
    if boxes != [] {
      var n := |boxes| - 1;
      QueueLengthAtMostBoxes(boxes[..n], speedMap, stopLineY);
    }
  }

  /** A vehicle without a speed entry is taken to move fast and never joins the queue. */
  lemma MissingSpeedNeverQueued(boxes: seq<Box>, speedMap: map<VehicleId, real>, stopLineY: int, v: VehicleId)
    requires v !in speedMap
    ensures v !in StoppedIds(boxes, speedMap, stopLineY)
  {
    StoppedIdsAreQueuedVehicles(boxes, speedMap, stopLineY, v);
  }

  /** The boxes strictly above the stop line, in frame order. */
  function Upstream(boxes: seq<Box>, stopLineY: int): (up: seq<Box>)
    ensures |up| <= |boxes|
    ensures forall k :: 0 <= k < |up| ==> up[k].y2 < stopLineY
    decreases |boxes|
  {
    if boxes == [] then []
    else
      var n := |boxes| - 1;
      Upstream(boxes[..n], stopLineY) + (if boxes[n].y2 < stopLineY then [boxes[n]] else [])
  }

  /** Boxes on or beyond the stop line contribute neither to the queue nor to its area. */
  lemma {:induction false} BeyondLineIgnored(boxes: seq<Box>, speedMap: map<VehicleId, real>, stopLineY: int)
    ensures StoppedIds(Upstream(boxes, stopLineY), speedMap, stopLineY) == StoppedIds(boxes, speedMap, stopLineY)
    ensures OccupiedArea(Upstream(boxes, stopLineY), speedMap, stopLineY) == OccupiedArea(boxes, speedMap, stopLineY)
    decreases |boxes|
  {
    if boxes != [] {
      var n := |boxes| - 1;
      BeyondLineIgnored(boxes[..n], speedMap, stopLineY);
      var up := Upstream(boxes[..n], stopLineY);
      if boxes[n].y2 < stopLineY {
        var ext := up + [boxes[n]];
        assert Upstream(boxes, stopLineY) == ext;
        assert ext[..|ext| - 1] == up && ext[|ext| - 1] == boxes[n];
      } else {
        assert Upstream(boxes, stopLineY) == up + [] == up;
      }
    }
  }

  /** With well-formed boxes the occupied area is never negative. */
  lemma {:induction false} OccupiedAreaNonNegative(boxes: seq<Box>, speedMap: map<VehicleId, real>, stopLineY: int)
    requires forall k :: 0 <= k < |boxes| ==> WellFormed(boxes[k])
    ensures OccupiedArea(boxes, speedMap, stopLineY) >= 0
    decreases |boxes|
  {
    if boxes != [] {
      var n := |boxes| - 1;
      OccupiedAreaNonNegative(boxes[..n], speedMap, stopLineY);
      assert WellFormed(boxes[n]);
    }
  }

  /** With well-formed boxes the density lies in the closed unit interval. */
  lemma DensityInUnitInterval(boxes: seq<Box>, speedMap: map<VehicleId, real>, stopLineY: int, frameWidth: int)
    requires forall k :: 0 <= k < |boxes| ==> WellFormed(boxes[k])
    ensures 0.0 <= Density(OccupiedArea(boxes, speedMap, stopLineY), stopLineY * frameWidth) <= 1.0
  {
    OccupiedAreaNonNegative(boxes, speedMap, stopLineY);
  }

  /**
   * The area is summed per box, not per vehicle: a queued vehicle reported
   * twice is counted once in the length and twice in the area.
   */
  lemma DuplicateBoxCountsTwiceInArea(boxes: seq<Box>, speedMap: map<VehicleId, real>, stopLineY: int, b: Box)
    requires Queued(b, speedMap, stopLineY)
    ensures StoppedIds(boxes + [b, b], speedMap, stopLineY) == StoppedIds(boxes, speedMap, stopLineY) + {b.vid}
    ensures OccupiedArea(boxes + [b, b], speedMap, stopLineY) == OccupiedArea(boxes, speedMap, stopLineY) + 2 * Area(b)
  {
    assert (boxes + [b, b])[..|boxes| + 1] == boxes + [b];
    assert (boxes + [b])[..|boxes|] == boxes;
  }

  /** One stationary 40 by 40 box above a stop line at 400 in a 640 pixel wide frame. */
  lemma SingleStoppedVehicle()
    ensures var boxes := [Box(0, 300, 40, 340, 1)];
            && |StoppedIds(boxes, map[1 := 0.0], 400)| == 1
            && Density(OccupiedArea(boxes, map[1 := 0.0], 400), 400 * 640) == 0.00625
  {
    var boxes := [Box(0, 300, 40, 340, 1)];
    assert boxes[..0] == [];
    assert StoppedIds(boxes, map[1 := 0.0], 400) == {1};
  }
}
