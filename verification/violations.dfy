/**
 * The engine's session state and its two violation rules: the per-vehicle
 * centroid memory that turns positions into speeds (rash driving) and the
 * one-shot set of vehicles already flagged for jumping a red light.
 */
module Violations {
  import opened Tracking

  /**
   * Euclidean length of a pixel displacement `(dx, dy)`. The engine takes
   * it from the platform's math library; the model receives it as a value
   * and reasons about it through IsDistance only.
   */
  type Hypot = (int, int) -> real

  /** `h` is a Euclidean norm: never negative, and its square is `dx² + dy²`. */
  ghost predicate IsDistance(h: Hypot) {
    && (forall dx: int, dy: int :: h(dx, dy) >= 0.0)
    && (forall dx: int, dy: int :: h(dx, dy) * h(dx, dy) == (dx * dx + dy * dy) as real)
  }

  /** Default threshold (pixels per second) above which a vehicle drives rashly. */
  const RASH_SPEED_THRESHOLD: real := 25.0

  /** Pixels per second between two consecutive centroids, one frame apart. */
  function Speed(prev: Point, cur: Point, fps: real, hypot: Hypot): real {
    hypot(cur.x - prev.x, cur.y - prev.y) * fps
  }

  /**
   * The `(rash, speed)` pair the rash-driving rule reports for `b` against
   * the centroid memory as it stands before the call.
   */
  function RashCheck(speedMemory: map<VehicleId, Point>, b: Box, fps: real,
                     speedThreshold: real, hypot: Hypot): (r: (bool, real))
    ensures b.vid !in speedMemory ==> !r.0 && r.1 == 0.0
    ensures b.vid in speedMemory ==> (r.0 <==> r.1 > speedThreshold)
    ensures IsDistance(hypot) && fps >= 0.0 ==> r.1 >= 0.0
  {
    if b.vid !in speedMemory then (false, 0.0)
    else
      var speed := Speed(speedMemory[b.vid], Centroid(b), fps, hypot);
      (speed > speedThreshold, speed)
  }

  /** Whether the red-light rule fires for `b` against the flagged set. */
  predicate RedJump(redJumpMemory: set<VehicleId>, b: Box, stopLineY: int, lightIsRed: bool) {
    lightIsRed && b.y2 > stopLineY && b.vid !in redJumpMemory
  }

  /** Two non-negative reals with the same square are equal. */
  lemma NonNegativeRootIsUnique(h: real, r: real)
    requires h >= 0.0 && r >= 0.0 && h * h == r * r
    ensures h == r
  {
    assert (h - r) * (h + r) == h * h - r * r;
    assert h == r || h + r > 0.0;
  }

  /** A vehicle whose centroid has not moved since the last frame has speed 0 and is not rash. */
  lemma StillVehicleIsNotRash(speedMemory: map<VehicleId, Point>, b: Box, fps: real,
                              speedThreshold: real, hypot: Hypot)
    requires IsDistance(hypot) && speedThreshold >= 0.0
    requires b.vid in speedMemory && speedMemory[b.vid] == Centroid(b)
    ensures RashCheck(speedMemory, b, fps, speedThreshold, hypot) == (false, 0.0)
  {
    NonNegativeRootIsUnique(hypot(0, 0), 0.0);
  }

  /** The reported speed is the distance between the two centroids scaled by the frame rate. */
  lemma SpeedIsScaledDistance(speedMemory: map<VehicleId, Point>, b: Box, fps: real,
                              speedThreshold: real, hypot: Hypot)
    requires IsDistance(hypot) && fps >= 0.0 && b.vid in speedMemory
    ensures var s := RashCheck(speedMemory, b, fps, speedThreshold, hypot).1;
            var dx := Centroid(b).x - speedMemory[b.vid].x;
            var dy := Centroid(b).y - speedMemory[b.vid].y;
            s >= 0.0 && s * s == (dx * dx + dy * dy) as real * fps * fps
  {
    var dx := Centroid(b).x - speedMemory[b.vid].x;
    var dy := Centroid(b).y - speedMemory[b.vid].y;
    var h := hypot(dx, dy);
    assert h * h == (dx * dx + dy * dy) as real;
    assert (h * fps) * (h * fps) == (h * h) * (fps * fps);
  }

  /** A horizontal move of three pixels at 30 frames per second gives 90 pixels per second. */
  lemma ThreePixelMoveAtThirtyFps(hypot: Hypot)
    requires IsDistance(hypot)
    ensures var first := Box(100, 100, 140, 140, 1);
            var moved := Box(103, 100, 143, 140, 1);
            && RashCheck(map[], first, 30.0, RASH_SPEED_THRESHOLD, hypot) == (false, 0.0)
            && RashCheck(map[1 := Centroid(first)], first, 30.0, RASH_SPEED_THRESHOLD, hypot) == (false, 0.0)
            && RashCheck(map[1 := Centroid(first)], moved, 30.0, RASH_SPEED_THRESHOLD, hypot) == (true, 90.0)
  {
    var first := Box(100, 100, 140, 140, 1);
    StillVehicleIsNotRash(map[1 := Centroid(first)], first, 30.0, RASH_SPEED_THRESHOLD, hypot);
    NonNegativeRootIsUnique(hypot(3, 0), 3.0);
  }

  /** After a reset every vehicle is new again: no speed yet, and eligible for a red-light jump. */
  lemma FreshSessionForgetsHistory(b: Box, fps: real, speedThreshold: real, hypot: Hypot, stopLineY: int)
    ensures RashCheck(map[], b, fps, speedThreshold, hypot) == (false, 0.0)
    ensures RedJump({}, b, stopLineY, true) <==> b.y2 > stopLineY
  {
  }

  /** One invocation of the red-light rule, with the stop line and signal of its frame. */
  datatype RedJumpCall = RedJumpCall(box: Box, stopLineY: int, lightIsRed: bool)

  /** The flagged set after a sequence of red-light rule invocations. */
  function RedJumpMemoryAfter(redJumpMemory: set<VehicleId>, calls: seq<RedJumpCall>): set<VehicleId>
    decreases |calls|
  {
    if calls == [] then redJumpMemory
    else
      var n := |calls| - 1;
      var before := RedJumpMemoryAfter(redJumpMemory, calls[..n]);
      if RedJump(before, calls[n].box, calls[n].stopLineY, calls[n].lightIsRed)
      then before + {calls[n].box.vid} else before
  }

  /** What each invocation of a sequence reports. */
  function RedJumpFlags(redJumpMemory: set<VehicleId>, calls: seq<RedJumpCall>): (flags: seq<bool>)
    ensures |flags| == |calls|
  {
    seq(|calls|, k requires 0 <= k < |calls| =>
      RedJump(RedJumpMemoryAfter(redJumpMemory, calls[..k]), calls[k].box, calls[k].stopLineY, calls[k].lightIsRed))
  }

  /** The flagged set only grows along a run: a longer prefix never holds fewer vehicles. */
  lemma {:induction false} RedJumpMemoryGrows(redJumpMemory: set<VehicleId>, calls: seq<RedJumpCall>, i: nat, j: nat)
    requires i <= j <= |calls|
    ensures redJumpMemory <= RedJumpMemoryAfter(redJumpMemory, calls[..j])
    ensures RedJumpMemoryAfter(redJumpMemory, calls[..i]) <= RedJumpMemoryAfter(redJumpMemory, calls[..j])
    decreases j
  {
    if j == 0 {
      assert calls[..0] == [];
    } else {
      RedJumpMemoryGrows(redJumpMemory, calls, if i < j then i else j - 1, j - 1);
      assert calls[..j][..j - 1] == calls[..j - 1];
    }
  }

  /**
   * Between resets the red-light rule reports a vehicle at most once, never
   * reports a vehicle flagged before the run, and every reported vehicle ends
   * up in the flagged set.
   */
  lemma RedJumpAtMostOnce(redJumpMemory: set<VehicleId>, calls: seq<RedJumpCall>)
    ensures var flags := RedJumpFlags(redJumpMemory, calls);
            forall i, j :: 0 <= i < j < |calls| && calls[i].box.vid == calls[j].box.vid ==> !(flags[i] && flags[j])
    ensures var flags := RedJumpFlags(redJumpMemory, calls);
            forall i :: 0 <= i < |calls| && flags[i] ==>
              calls[i].box.vid !in redJumpMemory && calls[i].box.vid in RedJumpMemoryAfter(redJumpMemory, calls)
  {
    var flags := RedJumpFlags(redJumpMemory, calls);
    forall i, j | 0 <= i < j < |calls| && calls[i].box.vid == calls[j].box.vid && flags[i]
      ensures !flags[j]
    {
      assert calls[..i + 1][..i] == calls[..i];
      RedJumpMemoryGrows(redJumpMemory, calls, i + 1, j);
    }
    forall i | 0 <= i < |calls| && flags[i]
      ensures calls[i].box.vid !in redJumpMemory && calls[i].box.vid in RedJumpMemoryAfter(redJumpMemory, calls)
    {
      RedJumpMemoryGrows(redJumpMemory, calls, i, i);
      assert calls[..i + 1][..i] == calls[..i];
      RedJumpMemoryGrows(redJumpMemory, calls, i + 1, |calls|);
      assert calls[..|calls|] == calls;
    }
  }

  /** While the light is green the rule reports nothing and the flagged set stays as it was. */
  lemma {:induction false} GreenNeverFlags(redJumpMemory: set<VehicleId>, calls: seq<RedJumpCall>)
    requires forall k :: 0 <= k < |calls| ==> !calls[k].lightIsRed
    ensures RedJumpMemoryAfter(redJumpMemory, calls) == redJumpMemory
    ensures forall k :: 0 <= k < |calls| ==> !RedJumpFlags(redJumpMemory, calls)[k]
    decreases |calls|
  {
    if calls != [] {
      var n := |calls| - 1;
      GreenNeverFlags(redJumpMemory, calls[..n]);
      forall k | 0 <= k < |calls| ensures RedJumpMemoryAfter(redJumpMemory, calls[..k]) == redJumpMemory {
        GreenNeverFlags(redJumpMemory, calls[..k]);
      }
    }
  }

  /**
   * The module-level stores of the engine: the last centroid of every vehicle
   * seen in this session, and the vehicles already flagged for a red-light jump.
   */
  class ViolationMemory {
    var speedMemory: map<VehicleId, Point>
    var redJumpMemory: set<VehicleId>
    /** The distance function the speed estimate uses. */
    const hypot: Hypot

    constructor (hypot: Hypot)
      ensures speedMemory == map[] && redJumpMemory == {}
      ensures this.hypot == hypot
    {
      speedMemory := map[];
      redJumpMemory := {};
      this.hypot := hypot;
    }

    /** Forget every vehicle: both stores become empty, whatever they held. */
    method Reset()
      modifies this
      ensures speedMemory == map[] && redJumpMemory == {}
    {
      speedMemory := map[];
      redJumpMemory := {};
    }

    /**
     * Report `(rash, speed)` for `box` and remember its centroid. Only the
     * entry of `box.vid` changes; the flagged set is untouched.
     */
    method DetectRashDriving(box: Box, fps: real, speedThreshold: real) returns (rash: bool, speed: real)
      modifies this
      ensures (rash, speed) == RashCheck(old(speedMemory), box, fps, speedThreshold, hypot)
      ensures box.vid !in old(speedMemory) ==> !rash && speed == 0.0
      ensures box.vid in old(speedMemory) ==>
                speed == Speed(old(speedMemory)[box.vid], Centroid(box), fps, hypot) && (rash <==> speed > speedThreshold)
      ensures speedMemory == old(speedMemory)[box.vid := Centroid(box)]
      ensures redJumpMemory == old(redJumpMemory)
    {
      var c := Centroid(box);
      if box.vid !in speedMemory {
        speedMemory := speedMemory[box.vid := c];
        return false, 0.0;
      }
      var p := speedMemory[box.vid];
      var dist := hypot(c.x - p.x, c.y - p.y);
      speed := dist * fps;
      speedMemory := speedMemory[box.vid := c];
      rash := speed > speedThreshold;
    }

    /**
     * Report a red-light jump for `box`: only while the light is red, only
     * beyond the stop line, and only once per vehicle; a report adds the
     * vehicle to the flagged set. The centroid memory is untouched.
     */
    method DetectRedLightJump(box: Box, stopLineY: int, lightIsRed: bool) returns (red: bool)
      modifies this
      ensures red <==> lightIsRed && box.y2 > stopLineY && box.vid !in old(redJumpMemory)
      ensures red == RedJump(old(redJumpMemory), box, stopLineY, lightIsRed)
      ensures redJumpMemory == if red then old(redJumpMemory) + {box.vid} else old(redJumpMemory)
      ensures speedMemory == old(speedMemory)
    {
      if !lightIsRed {
        return false;
      }
      if box.y2 > stopLineY && box.vid !in redJumpMemory {
        redJumpMemory := redJumpMemory + {box.vid};
        return true;
      }
      return false;
    }
  }
}
