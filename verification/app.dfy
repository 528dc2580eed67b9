/**
 * The per-frame pipeline of a traffic-analysis session: speeds for every
 * tracked box, the inferred signal state, the queue metrics, the two
 * violation rules and one output record per box.
 */
module App {
  import opened Tracking
  import opened Violations
  import opened QueueUtils

  /** Half-width (pixels) of the band around the stop line used to infer the signal. */
  const NEAR_LINE_BAND: int := 40
  /** Below this mean speed (pixels per second) the vehicles near the line are taken as stopped. */
  const SIGNAL_STOPPED_SPEED: real := 3.0

  // ---------------------------------------------------------------------------
  // Signal inference
  // ---------------------------------------------------------------------------

  /** `b` ends strictly within the band around the stop line. */
  predicate NearLine(b: Box, stopLineY: int) {
    Abs(b.y2 - stopLineY) < NEAR_LINE_BAND
  }

  /** The speeds of the boxes near the stop line, in frame order; a missing entry reads as 0. */
  function NearLineSpeeds(boxes: seq<Box>, speedMap: map<VehicleId, real>, stopLineY: int): (speeds: seq<real>)
    ensures |speeds| <= |boxes|
    decreases |boxes|
  {
    if boxes == [] then []
    else
      var n := |boxes| - 1;
      NearLineSpeeds(boxes[..n], speedMap, stopLineY)
        + (if NearLine(boxes[n], stopLineY) then [SpeedOr(speedMap, boxes[n].vid, 0.0)] else [])
  }

  function Sum(xs: seq<real>): real
    decreases |xs|
  {
    if xs == [] then 0.0 else Sum(xs[..|xs| - 1]) + xs[|xs| - 1]
  }

  /**
   * True (RED) when no box is near the stop line, or when the mean speed of
   * those that are is below the stopped threshold; false (GREEN) otherwise.
   */
  function InferSignalState(trackedBoxes: seq<Box>, speedMap: map<VehicleId, real>, stopLineY: int): (isRed: bool)
    ensures (forall k :: 0 <= k < |trackedBoxes| ==> !NearLine(trackedBoxes[k], stopLineY)) ==> isRed
    ensures (exists k :: 0 <= k < |trackedBoxes| && NearLine(trackedBoxes[k], stopLineY)) ==>
              && |NearLineSpeeds(trackedBoxes, speedMap, stopLineY)| > 0
              && (isRed <==> Sum(NearLineSpeeds(trackedBoxes, speedMap, stopLineY))
                             < SIGNAL_STOPPED_SPEED * |NearLineSpeeds(trackedBoxes, speedMap, stopLineY)| as real)
  {
    var speeds := NearLineSpeeds(trackedBoxes, speedMap, stopLineY);
    NoSpeedsIffNoneNearLine(trackedBoxes, speedMap, stopLineY);
    if |speeds| == 0 then true
    else
      MeanBelowIffSumBelow(Sum(speeds), |speeds|);
      Sum(speeds) / |speeds| as real < SIGNAL_STOPPED_SPEED
  }

  /** The mean of `count` values is below 3 exactly when their sum is below `3 * count`. */
  lemma MeanBelowIffSumBelow(total: real, count: nat)
    requires count > 0
    ensures total / count as real < SIGNAL_STOPPED_SPEED <==> total < SIGNAL_STOPPED_SPEED * count as real
  {
    var c := count as real;
    assert (total / c) * c == total;
  }

  /** There is nothing to average exactly when no box lies in the band. */
  lemma {:induction false} NoSpeedsIffNoneNearLine(boxes: seq<Box>, speedMap: map<VehicleId, real>, stopLineY: int)
    ensures NearLineSpeeds(boxes, speedMap, stopLineY) == [] <==>
            forall k :: 0 <= k < |boxes| ==> !NearLine(boxes[k], stopLineY)
    decreases |boxes|
  {
    if boxes != [] {
      var n := |boxes| - 1;
      var prefix := boxes[..n];
      NoSpeedsIffNoneNearLine(prefix, speedMap, stopLineY);
      assert forall k :: 0 <= k < n ==> prefix[k] == boxes[k];
    }
  }

  /**
   * A box at 40 pixels or more from the stop line, exactly 40 included,
   * never changes the inferred signal.
   */
  lemma OutsideBandIgnored(boxes: seq<Box>, speedMap: map<VehicleId, real>, stopLineY: int, b: Box)
    requires Abs(b.y2 - stopLineY) >= NEAR_LINE_BAND
    ensures InferSignalState(boxes + [b], speedMap, stopLineY) == InferSignalState(boxes, speedMap, stopLineY)
  {
    assert (boxes + [b])[..|boxes|] == boxes;
    var speeds := NearLineSpeeds(boxes, speedMap, stopLineY);
    assert speeds + [] == speeds;
    assert NearLineSpeeds(boxes + [b], speedMap, stopLineY) == speeds;
  }

  /** A vehicle near the line with no speed entry is averaged in as standing still. */
  lemma {:induction false} MissingSpeedReadsAsZero(boxes: seq<Box>, speedMap: map<VehicleId, real>, stopLineY: int, v: VehicleId)
    requires v !in speedMap
    ensures NearLineSpeeds(boxes, speedMap, stopLineY) == NearLineSpeeds(boxes, speedMap[v := 0.0], stopLineY)
    ensures InferSignalState(boxes, speedMap, stopLineY) == InferSignalState(boxes, speedMap[v := 0.0], stopLineY)
    decreases |boxes|
  {
    if boxes != [] {
      MissingSpeedReadsAsZero(boxes[..|boxes| - 1], speedMap, stopLineY, v);
    }
  }

  /** When every vehicle in the band is below the stopped threshold, the signal is RED. */
  lemma AllStoppedNearLineIsRed(boxes: seq<Box>, speedMap: map<VehicleId, real>, stopLineY: int)
    requires forall k :: 0 <= k < |boxes| && NearLine(boxes[k], stopLineY) ==>
               SpeedOr(speedMap, boxes[k].vid, 0.0) < SIGNAL_STOPPED_SPEED
    ensures InferSignalState(boxes, speedMap, stopLineY)
  {
    var speeds := NearLineSpeeds(boxes, speedMap, stopLineY);
    NearLineSpeedsBelow(boxes, speedMap, stopLineY);
    if |speeds| > 0 {
      SumBelow(speeds);
    }
  }

  lemma {:induction false} NearLineSpeedsBelow(boxes: seq<Box>, speedMap: map<VehicleId, real>, stopLineY: int)
    requires forall k :: 0 <= k < |boxes| && NearLine(boxes[k], stopLineY) ==>
               SpeedOr(speedMap, boxes[k].vid, 0.0) < SIGNAL_STOPPED_SPEED
    ensures forall i :: 0 <= i < |NearLineSpeeds(boxes, speedMap, stopLineY)| ==>
              NearLineSpeeds(boxes, speedMap, stopLineY)[i] < SIGNAL_STOPPED_SPEED
    decreases |boxes|
  {
    if boxes != [] {
      var n := |boxes| - 1;
      NearLineSpeedsBelow(boxes[..n], speedMap, stopLineY);
      var before := NearLineSpeeds(boxes[..n], speedMap, stopLineY);
      var speeds := NearLineSpeeds(boxes, speedMap, stopLineY);
      if NearLine(boxes[n], stopLineY) {
        var last := SpeedOr(speedMap, boxes[n].vid, 0.0);
        assert last < SIGNAL_STOPPED_SPEED;
        assert speeds == before + [last];
        forall i | 0 <= i < |speeds| ensures speeds[i] < SIGNAL_STOPPED_SPEED {
          if i < |before| { assert speeds[i] == before[i]; }
        }
      } else {
        assert speeds == before + [] == before;
      }
    }
  }

  lemma {:induction false} SumBelow(xs: seq<real>)
    requires |xs| > 0 && forall i :: 0 <= i < |xs| ==> xs[i] < SIGNAL_STOPPED_SPEED
    ensures Sum(xs) < SIGNAL_STOPPED_SPEED * |xs| as real
    decreases |xs|
  {
    var n := |xs| - 1;
    if n > 0 {
      SumBelow(xs[..n]);
    } else {
      assert xs[..n] == [];
    }
  }

  // ---------------------------------------------------------------------------
  // Per-frame pipeline: specification
  // ---------------------------------------------------------------------------

  datatype SignalLabel = RED | GREEN

  function Label(lightIsRed: bool): (signal: SignalLabel)
    ensures signal == RED <==> lightIsRed
  {
    if lightIsRed then RED else GREEN
  }

  /** One row of the session log, written once per tracked box per frame. */
  datatype FrameRecord = FrameRecord(
    frame: nat,
    vehicleId: VehicleId,
    speed: real,
    redLightJump: bool,
    rashDriving: bool,
    queueLength: nat,
    queueDensity: real,
    signalState: SignalLabel)

  /** The centroid memory after the rash-driving rule has seen `boxes` in order. */
  function CentroidsAfter(speedMemory: map<VehicleId, Point>, boxes: seq<Box>): map<VehicleId, Point>
    decreases |boxes|
  {
    if boxes == [] then speedMemory
    else
      var n := |boxes| - 1;
      CentroidsAfter(speedMemory, boxes[..n])[boxes[n].vid := Centroid(boxes[n])]
  }

  /** The speed map after the first loop of a frame has stored each box's reported speed. */
  function SpeedMapAfter(speedMemory: map<VehicleId, Point>, speedMap: map<VehicleId, real>,
                         boxes: seq<Box>, fps: real, hypot: Hypot): map<VehicleId, real>
    decreases |boxes|
  {
    if boxes == [] then speedMap
    else
      var n := |boxes| - 1;
      var speed := RashCheck(CentroidsAfter(speedMemory, boxes[..n]), boxes[n], fps, RASH_SPEED_THRESHOLD, hypot).1;
      SpeedMapAfter(speedMemory, speedMap, boxes[..n], fps, hypot)[boxes[n].vid := speed]
  }

  /** What the second loop of a frame shares across its boxes. */
  datatype FrameContext = FrameContext(
    frameNo: nat,
    fps: real,
    hypot: Hypot,
    stopLineY: int,
    lightIsRed: bool,
    queueLength: nat,
    queueDensity: real)

  /** What the second loop of a frame has produced so far. */
  datatype Judged = Judged(redJumpMemory: set<VehicleId>, records: seq<FrameRecord>, violations: nat)

  /**
   * The second loop over `boxes`, starting from the centroid memory and the
   * flagged set as they stand after the first loop.
   */
  function JudgeAll(speedMemory: map<VehicleId, Point>, redJumpMemory: set<VehicleId>,
                    boxes: seq<Box>, ctx: FrameContext): Judged
    decreases |boxes|
  {
    if boxes == [] then Judged(redJumpMemory, [], 0)
    else
      var n := |boxes| - 1;
      var b := boxes[n];
      var p := JudgeAll(speedMemory, redJumpMemory, boxes[..n], ctx);
      var verdict := RashCheck(CentroidsAfter(speedMemory, boxes[..n]), b, ctx.fps, RASH_SPEED_THRESHOLD, ctx.hypot);
      var red := RedJump(p.redJumpMemory, b, ctx.stopLineY, ctx.lightIsRed);
      var record := FrameRecord(ctx.frameNo, b.vid, verdict.1, red, verdict.0,
                                ctx.queueLength, ctx.queueDensity, Label(ctx.lightIsRed));
      Judged(if red then p.redJumpMemory + {b.vid} else p.redJumpMemory,
             p.records + [record],
             if verdict.0 || red then p.violations + 1 else p.violations)
  }

  /** The red-light rule invocations of the second loop. */
  function RedJumpCalls(boxes: seq<Box>, ctx: FrameContext): (calls: seq<RedJumpCall>)
    ensures |calls| == |boxes|
    ensures forall k :: 0 <= k < |boxes| ==> calls[k].box == boxes[k]
  {
    seq(|boxes|, k requires 0 <= k < |boxes| => RedJumpCall(boxes[k], ctx.stopLineY, ctx.lightIsRed))
  }

  /** The number of records flagged for either violation. */
  function CountViolations(records: seq<FrameRecord>): (count: nat)
    ensures count <= |records|
    decreases |records|
  {
    if records == [] then 0
    else
      var n := |records| - 1;
      CountViolations(records[..n]) + (if records[n].rashDriving || records[n].redLightJump then 1 else 0)
  }

  // ---------------------------------------------------------------------------
  // Per-frame pipeline: properties of the specification
  // ---------------------------------------------------------------------------

  /** The boxes after index `k` carry a different vehicle id. */
  predicate LastOccurrence(boxes: seq<Box>, k: int) {
    0 <= k < |boxes| && forall j :: k < j < |boxes| ==> boxes[j].vid != boxes[k].vid
  }

  /** The centroid memory gains exactly the ids of the frame. */
  lemma {:induction false} CentroidsAfterKeys(speedMemory: map<VehicleId, Point>, boxes: seq<Box>)
    ensures CentroidsAfter(speedMemory, boxes).Keys == speedMemory.Keys + Ids(boxes)
    decreases |boxes|
  {
    if boxes != [] {
      CentroidsAfterKeys(speedMemory, boxes[..|boxes| - 1]);
    }
  }

  /** An id absent from the frame keeps its centroid. */
  lemma {:induction false} CentroidsAfterKeepsOthers(speedMemory: map<VehicleId, Point>, boxes: seq<Box>, v: VehicleId)
    requires v in speedMemory && v !in Ids(boxes)
    ensures v in CentroidsAfter(speedMemory, boxes) && CentroidsAfter(speedMemory, boxes)[v] == speedMemory[v]
    decreases |boxes|
  {
    if boxes != [] {
      CentroidsAfterKeepsOthers(speedMemory, boxes[..|boxes| - 1], v);
    }
  }

  /** An id of the frame ends at the centroid of its last box. */
  lemma {:induction false} CentroidsAfterLast(speedMemory: map<VehicleId, Point>, boxes: seq<Box>, k: int)
    requires LastOccurrence(boxes, k)
    ensures boxes[k].vid in CentroidsAfter(speedMemory, boxes)
    ensures CentroidsAfter(speedMemory, boxes)[boxes[k].vid] == Centroid(boxes[k])
    decreases |boxes|
  {
    var n := |boxes| - 1;
    if k < n {
      var prefix := boxes[..n];
      assert prefix[k] == boxes[k];
      assert LastOccurrence(prefix, k);
      CentroidsAfterLast(speedMemory, prefix, k);
    }
  }

  /** Running the centroid update over a frame a second time changes nothing further. */
  lemma CentroidsAfterTwice(speedMemory: map<VehicleId, Point>, boxes: seq<Box>)
    ensures CentroidsAfter(CentroidsAfter(speedMemory, boxes), boxes) == CentroidsAfter(speedMemory, boxes)
  {
    var once := CentroidsAfter(speedMemory, boxes);
    var twice := CentroidsAfter(once, boxes);
    CentroidsAfterKeys(speedMemory, boxes);
    CentroidsAfterKeys(once, boxes);
    forall v | v in once ensures twice[v] == once[v] {
      if v in Ids(boxes) {
        var k := LastIndexOf(boxes, v);
        CentroidsAfterLast(speedMemory, boxes, k);
        CentroidsAfterLast(once, boxes, k);
      } else {
        CentroidsAfterKeepsOthers(once, boxes, v);
      }
    }
  }

  /** The index of the last box carrying `v`. */
  function LastIndexOf(boxes: seq<Box>, v: VehicleId): (k: nat)
    requires v in Ids(boxes)
    ensures LastOccurrence(boxes, k) && boxes[k].vid == v
    decreases |boxes|
  {
    var n := |boxes| - 1;
    if boxes[n].vid == v then n
    else
      var k := LastIndexOf(boxes[..n], v);
      assert boxes[..n][k] == boxes[k];
      k
  }

  /** With distinct ids, no box before index `k` carries the id of box `k`. */
  lemma DistinctNotEarlier(boxes: seq<Box>, k: int)
    requires DistinctIds(boxes) && 0 <= k < |boxes|
    ensures boxes[k].vid !in Ids(boxes[..k])
    ensures LastOccurrence(boxes, k)
  {
    IdsOccur(boxes[..k], boxes[k].vid);
  }

  /** A speed-map entry for an id absent from the frame is left as it was. */
  lemma {:induction false} SpeedMapAfterKeepsOthers(speedMemory: map<VehicleId, Point>, speedMap: map<VehicleId, real>,
                                                    boxes: seq<Box>, fps: real, hypot: Hypot, v: VehicleId)
    requires v !in Ids(boxes)
    ensures v in SpeedMapAfter(speedMemory, speedMap, boxes, fps, hypot) <==> v in speedMap
    ensures v in speedMap ==> SpeedMapAfter(speedMemory, speedMap, boxes, fps, hypot)[v] == speedMap[v]
    decreases |boxes|
  {
    if boxes != [] {
      SpeedMapAfterKeepsOthers(speedMemory, speedMap, boxes[..|boxes| - 1], fps, hypot, v);
    }
  }

  /**
   * After the first loop the speed map holds, for an id of the frame, the
   * speed reported by the call for its last box.
   */
  lemma {:induction false} SpeedMapAfterLast(speedMemory: map<VehicleId, Point>, speedMap: map<VehicleId, real>,
                                             boxes: seq<Box>, fps: real, hypot: Hypot, k: int)
    requires LastOccurrence(boxes, k)
    ensures boxes[k].vid in SpeedMapAfter(speedMemory, speedMap, boxes, fps, hypot)
    ensures SpeedMapAfter(speedMemory, speedMap, boxes, fps, hypot)[boxes[k].vid]
              == RashCheck(CentroidsAfter(speedMemory, boxes[..k]), boxes[k], fps, RASH_SPEED_THRESHOLD, hypot).1
    decreases |boxes|
  {
    var n := |boxes| - 1;
    if k < n {
      var prefix := boxes[..n];
      assert prefix[k] == boxes[k] && prefix[..k] == boxes[..k];
      assert LastOccurrence(prefix, k);
      SpeedMapAfterLast(speedMemory, speedMap, prefix, fps, hypot, k);
    }
  }

  /**
   * With distinct ids, the speed stored for each box is the speed its own
   * call reports against the memory as it stood before the frame.
   */
  lemma DistinctSpeedMapEntries(speedMemory: map<VehicleId, Point>, speedMap: map<VehicleId, real>,
                                boxes: seq<Box>, fps: real, hypot: Hypot, k: int)
    requires DistinctIds(boxes) && 0 <= k < |boxes|
    ensures boxes[k].vid in SpeedMapAfter(speedMemory, speedMap, boxes, fps, hypot)
    ensures SpeedMapAfter(speedMemory, speedMap, boxes, fps, hypot)[boxes[k].vid]
              == RashCheck(speedMemory, boxes[k], fps, RASH_SPEED_THRESHOLD, hypot).1
  {
    var v := boxes[k].vid;
    var prefix := boxes[..k];
    DistinctNotEarlier(boxes, k);
    SpeedMapAfterLast(speedMemory, speedMap, boxes, fps, hypot, k);
    CentroidsAfterKeys(speedMemory, prefix);
    if v in speedMemory {
      CentroidsAfterKeepsOthers(speedMemory, prefix, v);
    }
  }

  /**
   * The second loop yields one record per box, counts exactly the flagged
   * records, and leaves the flagged set where the red-light rule, run over the
   * frame's boxes, leaves it.
   */
  lemma JudgeAllSummary(speedMemory: map<VehicleId, Point>, redJumpMemory: set<VehicleId>,
                        boxes: seq<Box>, ctx: FrameContext)
    ensures |JudgeAll(speedMemory, redJumpMemory, boxes, ctx).records| == |boxes|
    ensures JudgeAll(speedMemory, redJumpMemory, boxes, ctx).violations
              == CountViolations(JudgeAll(speedMemory, redJumpMemory, boxes, ctx).records)
    ensures JudgeAll(speedMemory, redJumpMemory, boxes, ctx).redJumpMemory
              == RedJumpMemoryAfter(redJumpMemory, RedJumpCalls(boxes, ctx))
  {
    JudgeAllLength(speedMemory, redJumpMemory, boxes, ctx);
    JudgeAllCountsViolations(speedMemory, redJumpMemory, boxes, ctx);
    JudgeAllFlagged(speedMemory, redJumpMemory, boxes, ctx);
  }

  lemma {:induction false} JudgeAllLength(speedMemory: map<VehicleId, Point>, redJumpMemory: set<VehicleId>,
                                          boxes: seq<Box>, ctx: FrameContext)
    ensures |JudgeAll(speedMemory, redJumpMemory, boxes, ctx).records| == |boxes|
    decreases |boxes|
  {
    if boxes != [] {
      JudgeAllLength(speedMemory, redJumpMemory, boxes[..|boxes| - 1], ctx);
    }
  }

  lemma {:induction false} JudgeAllCountsViolations(speedMemory: map<VehicleId, Point>, redJumpMemory: set<VehicleId>,
                                                    boxes: seq<Box>, ctx: FrameContext)
    ensures JudgeAll(speedMemory, redJumpMemory, boxes, ctx).violations
              == CountViolations(JudgeAll(speedMemory, redJumpMemory, boxes, ctx).records)
    decreases |boxes|
  {
    if boxes != [] {
      var n := |boxes| - 1;
      var prefix := boxes[..n];
      JudgeAllCountsViolations(speedMemory, redJumpMemory, prefix, ctx);
      var p := JudgeAll(speedMemory, redJumpMemory, prefix, ctx);
      var j := JudgeAll(speedMemory, redJumpMemory, boxes, ctx);
      assert j.records == p.records + [j.records[|j.records| - 1]];
      assert j.records[..|j.records| - 1] == p.records;
    }
  }

  lemma {:induction false} JudgeAllFlagged(speedMemory: map<VehicleId, Point>, redJumpMemory: set<VehicleId>,
                                           boxes: seq<Box>, ctx: FrameContext)
    ensures JudgeAll(speedMemory, redJumpMemory, boxes, ctx).redJumpMemory
              == RedJumpMemoryAfter(redJumpMemory, RedJumpCalls(boxes, ctx))
    decreases |boxes|
  {
    if boxes != [] {
      var n := |boxes| - 1;
      var prefix := boxes[..n];
      JudgeAllFlagged(speedMemory, redJumpMemory, prefix, ctx);
      var calls := RedJumpCalls(boxes, ctx);
      assert RedJumpCalls(prefix, ctx) == calls[..n];
    }
  }

  /** One more box of the second loop: what its record and the flagged set become. */
  lemma JudgeAllStep(speedMemory: map<VehicleId, Point>, redJumpMemory: set<VehicleId>,
                     boxes: seq<Box>, ctx: FrameContext, i: int)
    requires 0 <= i < |boxes|
    ensures CentroidsAfter(speedMemory, boxes[..i + 1])
              == CentroidsAfter(speedMemory, boxes[..i])[boxes[i].vid := Centroid(boxes[i])]
    ensures var p := JudgeAll(speedMemory, redJumpMemory, boxes[..i], ctx);
            var verdict := RashCheck(CentroidsAfter(speedMemory, boxes[..i]), boxes[i], ctx.fps, RASH_SPEED_THRESHOLD, ctx.hypot);
            var red := RedJump(p.redJumpMemory, boxes[i], ctx.stopLineY, ctx.lightIsRed);
            JudgeAll(speedMemory, redJumpMemory, boxes[..i + 1], ctx)
              == Judged(if red then p.redJumpMemory + {boxes[i].vid} else p.redJumpMemory,
                        p.records + [FrameRecord(ctx.frameNo, boxes[i].vid, verdict.1, red, verdict.0,
                                                 ctx.queueLength, ctx.queueDensity, Label(ctx.lightIsRed))],
                        if verdict.0 || red then p.violations + 1 else p.violations)
  {
    assert boxes[..i + 1][..i] == boxes[..i];
  }

  /** The record the second loop writes for box `k`. */
  function RecordAt(speedMemory: map<VehicleId, Point>, redJumpMemory: set<VehicleId>,
                    boxes: seq<Box>, ctx: FrameContext, k: int): FrameRecord
    requires 0 <= k < |boxes|
  {
    var verdict := RashCheck(CentroidsAfter(speedMemory, boxes[..k]), boxes[k], ctx.fps, RASH_SPEED_THRESHOLD, ctx.hypot);
    var red := RedJump(RedJumpMemoryAfter(redJumpMemory, RedJumpCalls(boxes, ctx)[..k]), boxes[k], ctx.stopLineY, ctx.lightIsRed);
    FrameRecord(ctx.frameNo, boxes[k].vid, verdict.1, red, verdict.0, ctx.queueLength, ctx.queueDensity, Label(ctx.lightIsRed))
  }

  /** The record written for the last box of a frame is its `RecordAt`. */
  lemma JudgeAllLastRecord(speedMemory: map<VehicleId, Point>, redJumpMemory: set<VehicleId>,
                           boxes: seq<Box>, ctx: FrameContext)
    requires boxes != []
    ensures |JudgeAll(speedMemory, redJumpMemory, boxes, ctx).records| == |boxes|
    ensures JudgeAll(speedMemory, redJumpMemory, boxes, ctx).records[|boxes| - 1]
              == RecordAt(speedMemory, redJumpMemory, boxes, ctx, |boxes| - 1)
  {
    var n := |boxes| - 1;
    JudgeAllSummary(speedMemory, redJumpMemory, boxes[..n], ctx);
    JudgeAllLength(speedMemory, redJumpMemory, boxes, ctx);
    assert RedJumpCalls(boxes[..n], ctx) == RedJumpCalls(boxes, ctx)[..n];
  }

  /** Judging one more box leaves the records of the earlier boxes untouched. */
  lemma JudgeAllKeepsEarlierRecords(speedMemory: map<VehicleId, Point>, redJumpMemory: set<VehicleId>,
                                    boxes: seq<Box>, ctx: FrameContext)
    requires boxes != []
    ensures |JudgeAll(speedMemory, redJumpMemory, boxes, ctx).records| == |boxes|
    ensures JudgeAll(speedMemory, redJumpMemory, boxes, ctx).records[..|boxes| - 1]
              == JudgeAll(speedMemory, redJumpMemory, boxes[..|boxes| - 1], ctx).records
  {
    var n := |boxes| - 1;
    JudgeAllLength(speedMemory, redJumpMemory, boxes[..n], ctx);
  }

  /** The record for an earlier box does not depend on the boxes after it. */
  lemma RecordAtPrefix(speedMemory: map<VehicleId, Point>, redJumpMemory: set<VehicleId>,
                       boxes: seq<Box>, ctx: FrameContext, k: int)
    requires 0 <= k < |boxes| - 1
    ensures RecordAt(speedMemory, redJumpMemory, boxes[..|boxes| - 1], ctx, k)
              == RecordAt(speedMemory, redJumpMemory, boxes, ctx, k)
  {
    var prefix := boxes[..|boxes| - 1];
    assert prefix[..k] == boxes[..k] && prefix[k] == boxes[k];
    assert RedJumpCalls(prefix, ctx)[..k] == RedJumpCalls(boxes, ctx)[..k];
  }

  /** Each record of the second loop stays as it was written for its box. */
  lemma {:induction false} JudgeAllRecordAt(speedMemory: map<VehicleId, Point>, redJumpMemory: set<VehicleId>,
                                            boxes: seq<Box>, ctx: FrameContext, k: int)
    requires 0 <= k < |boxes|
    ensures k < |JudgeAll(speedMemory, redJumpMemory, boxes, ctx).records|
    ensures JudgeAll(speedMemory, redJumpMemory, boxes, ctx).records[k] == RecordAt(speedMemory, redJumpMemory, boxes, ctx, k)
    decreases |boxes|
  {
    var n := |boxes| - 1;
    JudgeAllLastRecord(speedMemory, redJumpMemory, boxes, ctx);
    if k < n {
      var prefix := boxes[..n];
      JudgeAllRecordAt(speedMemory, redJumpMemory, prefix, ctx, k);
      JudgeAllKeepsEarlierRecords(speedMemory, redJumpMemory, boxes, ctx);
      RecordAtPrefix(speedMemory, redJumpMemory, boxes, ctx, k);
      var records := JudgeAll(speedMemory, redJumpMemory, boxes, ctx).records;
      assert records[k] == records[..n][k];
    }
  }

  /** The red-light flag of record `k` is what the rule reports for the `k`-th call of the frame. */
  lemma RecordRedJumpIsFlag(speedMemory: map<VehicleId, Point>, redJumpMemory: set<VehicleId>,
                            boxes: seq<Box>, ctx: FrameContext, k: int)
    requires 0 <= k < |boxes|
    ensures RecordAt(speedMemory, redJumpMemory, boxes, ctx, k).redLightJump
              == RedJumpFlags(redJumpMemory, RedJumpCalls(boxes, ctx))[k]
  {
  }

  /**
   * The quirk of the pipeline as written: when the ids of a frame are
   * distinct, the second call for each box reads back the centroid the first
   * loop has just stored, so every record reports speed 0 and no rash driving.
   */
  lemma DistinctFrameRecordsAreStill(speedMemory: map<VehicleId, Point>, redJumpMemory: set<VehicleId>,
                                     boxes: seq<Box>, ctx: FrameContext)
    requires DistinctIds(boxes) && IsDistance(ctx.hypot)
    ensures |JudgeAll(CentroidsAfter(speedMemory, boxes), redJumpMemory, boxes, ctx).records| == |boxes|
    ensures forall k :: 0 <= k < |boxes| ==>
              && JudgeAll(CentroidsAfter(speedMemory, boxes), redJumpMemory, boxes, ctx).records[k].speed == 0.0
              && !JudgeAll(CentroidsAfter(speedMemory, boxes), redJumpMemory, boxes, ctx).records[k].rashDriving
  {
    var mid := CentroidsAfter(speedMemory, boxes);
    JudgeAllSummary(mid, redJumpMemory, boxes, ctx);
    forall k | 0 <= k < |boxes|
      ensures JudgeAll(mid, redJumpMemory, boxes, ctx).records[k].speed == 0.0
      ensures !JudgeAll(mid, redJumpMemory, boxes, ctx).records[k].rashDriving
    {
      var prefix := boxes[..k];
      JudgeAllRecordAt(mid, redJumpMemory, boxes, ctx, k);
      DistinctNotEarlier(boxes, k);
      CentroidsAfterLast(speedMemory, boxes, k);
      CentroidsAfterKeepsOthers(mid, prefix, boxes[k].vid);
      StillVehicleIsNotRash(CentroidsAfter(mid, prefix), boxes[k], ctx.fps, RASH_SPEED_THRESHOLD, ctx.hypot);
    }
  }

  /**
   * A log in which no vehicle has two red-light records and every vehicle
   * with one is in the flagged set.
   */
  ghost predicate OneShotLog(rows: seq<FrameRecord>, flagged: set<VehicleId>) {
    && (forall i :: 0 <= i < |rows| && rows[i].redLightJump ==> rows[i].vehicleId in flagged)
    && (forall i, k :: 0 <= i < k < |rows| && rows[i].redLightJump && rows[k].redLightJump ==>
          rows[i].vehicleId != rows[k].vehicleId)
  }

  /**
   * Within one frame's records a vehicle is flagged at most once, only if it
   * was not flagged before the frame, and it ends up in the flagged set,
   * which only grows.
   */
  lemma FrameFlagsOneShot(speedMemory: map<VehicleId, Point>, redJumpMemory: set<VehicleId>,
                          boxes: seq<Box>, ctx: FrameContext)
    ensures |JudgeAll(speedMemory, redJumpMemory, boxes, ctx).records| == |boxes|
    ensures redJumpMemory <= JudgeAll(speedMemory, redJumpMemory, boxes, ctx).redJumpMemory
    ensures forall k :: 0 <= k < |boxes| && JudgeAll(speedMemory, redJumpMemory, boxes, ctx).records[k].redLightJump ==>
              && JudgeAll(speedMemory, redJumpMemory, boxes, ctx).records[k].vehicleId !in redJumpMemory
              && JudgeAll(speedMemory, redJumpMemory, boxes, ctx).records[k].vehicleId
                   in JudgeAll(speedMemory, redJumpMemory, boxes, ctx).redJumpMemory
    ensures forall i, k ::
              (0 <= i < k < |boxes|
               && JudgeAll(speedMemory, redJumpMemory, boxes, ctx).records[i].redLightJump
               && JudgeAll(speedMemory, redJumpMemory, boxes, ctx).records[k].redLightJump) ==>
              JudgeAll(speedMemory, redJumpMemory, boxes, ctx).records[i].vehicleId
                != JudgeAll(speedMemory, redJumpMemory, boxes, ctx).records[k].vehicleId
  {
    var j := JudgeAll(speedMemory, redJumpMemory, boxes, ctx);
    var calls := RedJumpCalls(boxes, ctx);
    var flags := RedJumpFlags(redJumpMemory, calls);
    JudgeAllSummary(speedMemory, redJumpMemory, boxes, ctx);
    RedJumpAtMostOnce(redJumpMemory, calls);
    RedJumpMemoryGrows(redJumpMemory, calls, |calls|, |calls|);
    assert calls[..|calls|] == calls;
    forall k | 0 <= k < |boxes|
      ensures j.records[k].vehicleId == boxes[k].vid && j.records[k].redLightJump == flags[k]
    {
      JudgeAllRecordAt(speedMemory, redJumpMemory, boxes, ctx, k);
      RecordRedJumpIsFlag(speedMemory, redJumpMemory, boxes, ctx, k);
    }
  }

  /**
   * Appending a frame's records keeps the session log one-shot: within the
   * frame a vehicle is flagged at most once, a vehicle flagged in an earlier
   * frame is not flagged again, and the flagged set only grows.
   */
  lemma FrameKeepsOneShot(speedMemory: map<VehicleId, Point>, redJumpMemory: set<VehicleId>,
                          boxes: seq<Box>, ctx: FrameContext, log: seq<FrameRecord>)
    requires OneShotLog(log, redJumpMemory)
    ensures redJumpMemory <= JudgeAll(speedMemory, redJumpMemory, boxes, ctx).redJumpMemory
    ensures OneShotLog(log + JudgeAll(speedMemory, redJumpMemory, boxes, ctx).records,
                       JudgeAll(speedMemory, redJumpMemory, boxes, ctx).redJumpMemory)
  {
    var j := JudgeAll(speedMemory, redJumpMemory, boxes, ctx);
    FrameFlagsOneShot(speedMemory, redJumpMemory, boxes, ctx);
    var all := log + j.records;
    forall i | 0 <= i < |all| && all[i].redLightJump ensures all[i].vehicleId in j.redJumpMemory {
      if i >= |log| {
        assert all[i] == j.records[i - |log|];
      }
    }
    forall i, k | 0 <= i < k < |all| && all[i].redLightJump && all[k].redLightJump
      ensures all[i].vehicleId != all[k].vehicleId
    {
      if k >= |log| {
        assert all[k] == j.records[k - |log|];
        if i >= |log| {
          assert all[i] == j.records[i - |log|];
        }
      }
    }
  }

  /**
   * Every record appended for a frame carries that frame's number, queue
   * metrics and signal label, in the order of the tracked boxes; the count of
   * violations is the number of those records flagged rash or red.
   */
  lemma FrameRecordsShape(speedMemory: map<VehicleId, Point>, redJumpMemory: set<VehicleId>,
                          boxes: seq<Box>, ctx: FrameContext)
    ensures |JudgeAll(speedMemory, redJumpMemory, boxes, ctx).records| == |boxes|
    ensures JudgeAll(speedMemory, redJumpMemory, boxes, ctx).violations
              == CountViolations(JudgeAll(speedMemory, redJumpMemory, boxes, ctx).records)
    ensures forall k :: 0 <= k < |boxes| ==>
              var r := JudgeAll(speedMemory, redJumpMemory, boxes, ctx).records[k];
              && r.vehicleId == boxes[k].vid
              && r.frame == ctx.frameNo
              && r.queueLength == ctx.queueLength
              && r.queueDensity == ctx.queueDensity
              && (r.signalState == RED <==> ctx.lightIsRed)
  {
    JudgeAllSummary(speedMemory, redJumpMemory, boxes, ctx);
    forall k | 0 <= k < |boxes| ensures JudgeAll(speedMemory, redJumpMemory, boxes, ctx).records[k]
                                        == RecordAt(speedMemory, redJumpMemory, boxes, ctx, k) {
      JudgeAllRecordAt(speedMemory, redJumpMemory, boxes, ctx, k);
    }
  }

  // ---------------------------------------------------------------------------
  // Per-frame pipeline: the session
  // ---------------------------------------------------------------------------

  /**
   * One video session: the violation memory it resets at its start, the
   * speed map and the record log it keeps across frames, and the frame count.
   */
  class Session {
    const memory: ViolationMemory
    var speedMap: map<VehicleId, real>
    var rows: seq<FrameRecord>
    var frameNo: nat

    /**
     * The log never reports a vehicle's red-light jump twice, and every
     * vehicle it reports is in the flagged set.
     */
    ghost predicate Valid()
      reads this, memory
    {
      OneShotLog(rows, memory.redJumpMemory)
    }

    /** Start a session: reset the violation memory and begin with an empty log. */
    constructor (memory: ViolationMemory)
      modifies memory
      ensures Valid()
      ensures this.memory == memory
      ensures memory.speedMemory == map[] && memory.redJumpMemory == {}
      ensures speedMap == map[] && rows == [] && frameNo == 0
    {
      this.memory := memory;
      speedMap := map[];
      rows := [];
      frameNo := 0;
      new;
      memory.Reset();
    }

    /**
     * Process one frame of tracked boxes; returns the number of boxes flagged
     * for either violation and appends one record per box to the log.
     */
    method ProcessFrame(tracked: seq<Box>, fps: real, stopLineY: int, frameWidth: int) returns (violationsCount: nat)
      requires Valid()
      modifies this, memory
      ensures Valid()
      ensures frameNo == old(frameNo) + 1
      ensures speedMap == SpeedMapAfter(old(memory.speedMemory), old(speedMap), tracked, fps, memory.hypot)
      ensures memory.speedMemory == CentroidsAfter(old(memory.speedMemory), tracked)
      ensures memory.redJumpMemory == JudgeAll(CentroidsAfter(old(memory.speedMemory), tracked), old(memory.redJumpMemory),
                                               tracked, FrameContextOf(this, tracked, fps, stopLineY, frameWidth)).redJumpMemory
      ensures rows == old(rows) + JudgeAll(CentroidsAfter(old(memory.speedMemory), tracked), old(memory.redJumpMemory),
                                           tracked, FrameContextOf(this, tracked, fps, stopLineY, frameWidth)).records
      ensures violationsCount == JudgeAll(CentroidsAfter(old(memory.speedMemory), tracked), old(memory.redJumpMemory),
                                          tracked, FrameContextOf(this, tracked, fps, stopLineY, frameWidth)).violations
    {
      frameNo := frameNo + 1;
      UpdateSpeeds(tracked, fps);
      var lightIsRed := InferSignalState(tracked, speedMap, stopLineY);
      var qLen, qDen := GetQueueMetrics(tracked, speedMap, stopLineY, frameWidth);
      ghost var ctx := FrameContext(frameNo, fps, memory.hypot, stopLineY, lightIsRed, qLen, qDen);
      assert ctx == FrameContextOf(this, tracked, fps, stopLineY, frameWidth);
      ghost var mid := memory.speedMemory;
      ghost var rows0 := rows;
      ghost var redJumps0 := memory.redJumpMemory;
      violationsCount := JudgeBoxes(tracked, fps, stopLineY, lightIsRed, qLen, qDen);
      CentroidsAfterTwice(old(memory.speedMemory), tracked);
      FrameKeepsOneShot(mid, redJumps0, tracked, ctx, rows0);
    }

    /** The speed calculation of a frame: one rash-driving call per box fills the speed map. */
    method UpdateSpeeds(tracked: seq<Box>, fps: real)
      modifies this`speedMap, memory
      ensures speedMap == SpeedMapAfter(old(memory.speedMemory), old(speedMap), tracked, fps, memory.hypot)
      ensures memory.speedMemory == CentroidsAfter(old(memory.speedMemory), tracked)
      ensures memory.redJumpMemory == old(memory.redJumpMemory)
    {
      for i := 0 to |tracked|
        invariant memory.speedMemory == CentroidsAfter(old(memory.speedMemory), tracked[..i])
        invariant speedMap == SpeedMapAfter(old(memory.speedMemory), old(speedMap), tracked[..i], fps, memory.hypot)
        invariant memory.redJumpMemory == old(memory.redJumpMemory)
      {
        var rash, speed := memory.DetectRashDriving(tracked[i], fps, RASH_SPEED_THRESHOLD);
        speedMap := speedMap[tracked[i].vid := speed];
        assert tracked[..i + 1][..i] == tracked[..i];
      }
      assert tracked[..|tracked|] == tracked;
    }

    /**
     * The violation pass of a frame: a second rash-driving call and the
     * red-light rule for every box, one record appended per box.
     */
    method JudgeBoxes(tracked: seq<Box>, fps: real, stopLineY: int, lightIsRed: bool, qLen: nat, qDen: real)
      returns (violationsCount: nat)
      modifies this`rows, memory
      ensures var ctx := FrameContext(frameNo, fps, memory.hypot, stopLineY, lightIsRed, qLen, qDen);
              && memory.speedMemory == CentroidsAfter(old(memory.speedMemory), tracked)
              && memory.redJumpMemory == JudgeAll(old(memory.speedMemory), old(memory.redJumpMemory), tracked, ctx).redJumpMemory
              && rows == old(rows) + JudgeAll(old(memory.speedMemory), old(memory.redJumpMemory), tracked, ctx).records
              && violationsCount == JudgeAll(old(memory.speedMemory), old(memory.redJumpMemory), tracked, ctx).violations
    {
      ghost var ctx := FrameContext(frameNo, fps, memory.hypot, stopLineY, lightIsRed, qLen, qDen);
      ghost var speeds0 := memory.speedMemory;
      ghost var redJumps0 := memory.redJumpMemory;
      ghost var judged := JudgeAll(speeds0, redJumps0, [], ctx);
      violationsCount := 0;
      for i := 0 to |tracked|
        invariant judged == JudgeAll(speeds0, redJumps0, tracked[..i], ctx)
        invariant memory.speedMemory == CentroidsAfter(speeds0, tracked[..i])
        invariant memory.redJumpMemory == judged.redJumpMemory
        invariant rows == old(rows) + judged.records
        invariant violationsCount == judged.violations
      {
        var box := tracked[i];
        JudgeAllStep(speeds0, redJumps0, tracked, ctx, i);
        var rash, speed := memory.DetectRashDriving(box, fps, RASH_SPEED_THRESHOLD);
        var red := memory.DetectRedLightJump(box, stopLineY, lightIsRed);
        if rash || red {
          violationsCount := violationsCount + 1;
        }
        var record := FrameRecord(frameNo, box.vid, speed, red, rash, qLen, qDen, Label(lightIsRed));
        rows := rows + [record];
        judged := JudgeAll(speeds0, redJumps0, tracked[..i + 1], ctx);
      }
      assert tracked[..|tracked|] == tracked;
    }
  }

  /** The values the second loop of a frame shares, as the session computes them after its first loop. */
  ghost function FrameContextOf(s: Session, tracked: seq<Box>, fps: real, stopLineY: int, frameWidth: int): FrameContext
    reads s, s.memory
  {
    FrameContext(s.frameNo, fps, s.memory.hypot, stopLineY,
                 InferSignalState(tracked, s.speedMap, stopLineY),
                 |StoppedIds(tracked, s.speedMap, stopLineY)|,
                 Density(OccupiedArea(tracked, s.speedMap, stopLineY), stopLineY * frameWidth))
  }
}
