# Traffic analytics engine: a Dafny model

This project models the per-frame analytics engine of a traffic-monitoring application. Each video frame delivers tracked vehicle boxes `(x1, y1, x2, y2, vid)`. From them the engine derives:

- a speed for each vehicle, from the change of its centroid between frames;
- two violation flags: rash driving (speed above 25 px/s) and red-light jumping (beyond the stop line while the signal is red, reported once per vehicle);
- an inferred signal state: RED when the vehicles within 40 px of the stop line are, on average, slower than 3 px/s, and also RED when no vehicle is that close;
- queue metrics: how many distinct stopped vehicles wait above the stop line, and what fraction of the region above the line their boxes cover.

The model has four modules, one per source component:

- `Tracking` (`tracking.dfy`) holds the box and point values and the shared geometry: centroid, area, dictionary lookup with a default.
- `Violations` (`violations.dfy`) models `violations.py`. The two module-level stores become the fields of the class `ViolationMemory`: a `map` from vehicle id to last centroid, and a `set` of ids already flagged. Its methods are the reset and the two rules. Pure functions (`RashCheck`, `RedJump`) specify what the rules report. Lemmas prove the one-shot and grow-only behaviour over any sequence of calls.
- `QueueUtils` (`queue_utils.dfy`) models `queue_utils.py`. `GetQueueMetrics` is a method with the source's single loop. Its invariants tie the loop to the specification functions `StoppedIds`, `OccupiedArea` and `Density`.
- `App` (`app.dfy`) models the rest of `app.py`:
  - `InferSignalState` is a pure function.
  - The class `Session` owns the speed map, the record log and the frame counter. Its constructor resets the violation memory. `ProcessFrame` is the body of the per-frame loop without any drawing.
  - The frame's two loops are specified by the folds `CentroidsAfter`, `SpeedMapAfter` and `JudgeAll`.
  - `Session.Valid()` says that no vehicle ever has two red-light records in the session log, and `ProcessFrame` preserves it.

The model reproduces the pipeline as written, including one quirk. Step 1 of a frame calls the rash-driving rule on every box and stores the speeds in the speed map. Step 4 calls the same rule again, so it reads the centroid that step 1 has just stored. When the ids in a frame are distinct, every record therefore reports speed 0 and no rash driving (`App.DistinctFrameRecordsAreStill`). The speed map, which feeds the signal and the queue, does hold the real speeds. The red-light rule is also kept literally: a vehicle already beyond the line is flagged on the first red frame, whenever it actually crossed.

`math.hypot` is not computed. `ViolationMemory` receives a distance function `hypot`, and the lemmas assume only `IsDistance(hypot)`: the function is non-negative and its square is `dx² + dy²`. Speeds are `real`; floating-point rounding is not modelled.

Two further points of the code as written:

- The density is capped at 1 but has no lower clamp, so malformed boxes (`x2 < x1`) make it negative. `0 <= density` is proved only for well-formed boxes (`QueueUtils.DensityInUnitInterval`).
- The occupied area is summed per qualifying box, so a vehicle reported twice counts twice (`QueueUtils.DuplicateBoxCountsTwiceInArea`).

Some lemmas exist only as proof steps for the loops and carry no row below: `App.JudgeAllStep` (the second loop's step, used by `Session.JudgeBoxes`) and `App.RecordRedJumpIsFlag` (a record's red flag is the rule's flag for that call). The lookup `Tracking.SpeedOr` and the label `App.Label` are helpers too. What they serve is stated by `QueueUtils.MissingSpeedNeverQueued`, `App.MissingSpeedReadsAsZero` and `App.FrameRecordsShape`.

## Model

| member | source | states |
|---|---|---|
| `Tracking.Centroid` | violations.py:15 | each centroid coordinate is the midpoint rounded down (floor division by 2) |
| `Tracking.Area` | queue_utils.py:11 | a box's area `(x2-x1)*(y2-y1)` is non-negative when its corners are in order |
| `Violations.RashCheck` | violations.py:13-27 | on a first sighting the rule reports `(False, 0.0)`; otherwise the flag is exactly `speed > threshold`; the speed is non-negative for a true distance and `fps >= 0` |
| `Violations.StillVehicleIsNotRash` | violations.py:21-27 | a vehicle whose centroid did not move gets speed 0 and is not rash |
| `Violations.SpeedIsScaledDistance` | violations.py:21-24 | for a known vehicle, speed² = (dx² + dy²) · fps², and speed ≥ 0 |
| `Violations.ThreePixelMoveAtThirtyFps` | violations.py:13-27 | box (100,100)-(140,140) at 30 fps: first sighting 0, unchanged box 0, box moved 3 px right 90 and rash |
| `Violations.FreshSessionForgetsHistory` | violations.py:7-10 | with empty stores, any vehicle is a first sighting for speed and is eligible for a red-light jump whenever it is beyond the line under red |
| `Violations.RedJumpMemoryGrows` | violations.py:36-38 | along any sequence of red-light calls the flagged set only grows |
| `Violations.RedJumpAtMostOnce` | violations.py:36-38 | along any sequence of calls, a vehicle is reported at most once; a vehicle flagged before is never reported; every reported vehicle ends up flagged |
| `Violations.GreenNeverFlags` | violations.py:33-34 | while the light is green, no call reports a jump and the flagged set is unchanged |
| `Violations.ViolationMemory.constructor` | violations.py:4-5 | both stores start empty |
| `Violations.ViolationMemory.Reset` | violations.py:7-10 | both stores are empty afterwards whatever they held, so a second reset changes nothing |
| `Violations.ViolationMemory.DetectRashDriving` | violations.py:13-27 | reports `RashCheck` on the old memory: `(False, 0.0)` on a first sighting, else the scaled distance and `speed > threshold`; only the entry of `vid` changes, to the current centroid; the flagged set is untouched |
| `Violations.ViolationMemory.DetectRedLightJump` | violations.py:30-40 | returns True iff the light is red, `y2 > stop_line_y` and `vid` was not flagged; on True `vid` is added and nothing else changes; the centroid memory is untouched |
| `QueueUtils.Density` | queue_utils.py:15-16 | density is at most 1; 0 when the ROI area is not positive; non-negative for a non-negative area; exactly `area/roi` below the cap |
| `QueueUtils.GetQueueMetrics` | queue_utils.py:1-18 | the loop returns the number of distinct queued ids and the density of the summed queued box areas; length ≤ number of boxes; density ≤ 1, and 0 when `stop_line_y * frame_width <= 0` |
| `QueueUtils.StoppedIdsAreQueuedVehicles` | queue_utils.py:5-13 | an id is counted iff one of its boxes has `y2 < stop_line_y` and speed < 3 |
| `QueueUtils.QueueLengthAtMostBoxes` | queue_utils.py:2-13 | the queue length never exceeds the number of boxes |
| `QueueUtils.MissingSpeedNeverQueued` | queue_utils.py:6-10 | an id without a speed entry reads as 999 and is never counted |
| `QueueUtils.BeyondLineIgnored` | queue_utils.py:9-11 | dropping the boxes with `y2 >= stop_line_y` changes neither the queued ids nor the area |
| `QueueUtils.OccupiedAreaNonNegative` | queue_utils.py:9-11 | with well-formed boxes the summed area is non-negative |
| `QueueUtils.DensityInUnitInterval` | queue_utils.py:11-16 | with well-formed boxes the density lies in [0, 1] |
| `QueueUtils.DuplicateBoxCountsTwiceInArea` | queue_utils.py:9-13 | a queued vehicle reported twice adds one id but two box areas |
| `QueueUtils.SingleStoppedVehicle` | queue_utils.py:1-18 | stop line 400, width 640, stationary box (0,300)-(40,340): length 1, density 0.00625 |
| `App.InferSignalState` | app.py:21-31 | RED when no box is within 40 px of the line; when some box is, at least one speed is selected and the result is RED iff their sum is below 3 × their count |
| `App.MeanBelowIffSumBelow` | app.py:31 | a mean below 3 is the same as a sum below 3 × count |
| `App.NoSpeedsIffNoneNearLine` | app.py:22-28 | no speed is selected exactly when no box lies in the band, both directions |
| `App.OutsideBandIgnored` | app.py:25 | a box 40 px or more from the line, exactly 40 included, never changes the signal |
| `App.MissingSpeedReadsAsZero` | app.py:23 | a selected vehicle missing from the speed map counts exactly as speed 0 |
| `App.AllStoppedNearLineIsRed` | app.py:22-31 | when every vehicle in the band is below 3 px/s the signal is RED |
| `App.CentroidsAfterKeys` | app.py:74-75 | after a pass over a frame, the centroid memory holds exactly its old ids plus the frame's ids |
| `App.CentroidsAfterKeepsOthers` | app.py:74-75 | a pass leaves the centroid of an id that is not in the frame unchanged |
| `App.CentroidsAfterLast` | app.py:74-75 | after a pass, an id of the frame maps to the centroid of its last box |
| `App.CentroidsAfterTwice` | app.py:86-89 | the second pass of a frame leaves the centroid memory where the first left it |
| `App.SpeedMapAfterKeepsOthers` | app.py:74-76 | after the first loop, speed-map entries of ids not in the frame keep their old values |
| `App.SpeedMapAfterLast` | app.py:74-76 | after the first loop, an id's speed-map entry is the speed reported by the call for its last box |
| `App.DistinctSpeedMapEntries` | app.py:74-76 | with distinct ids, each box's speed-map entry is the speed its call reports against the memory before the frame |
| `App.JudgeAllSummary` | app.py:84-119 | the violation pass writes one record per box; its count is the number of records flagged rash or red; its flagged set is what the red-light rule leaves after the frame's calls |
| `App.JudgeAllRecordAt` | app.py:86-119 | the record for box `k` carries the second call's speed and rash flag, the rule's red flag, and the frame's number, queue metrics and label; later boxes never alter it |
| `App.DistinctFrameRecordsAreStill` | app.py:74-115 | with distinct ids, every record of the frame has speed 0 and is not rash, because the second call re-reads the centroid just stored |
| `App.FrameFlagsOneShot` | app.py:86-90 | within one frame a vehicle gets at most one red-light record, only if it was not flagged before the frame, and it ends up flagged; the flagged set only grows |
| `App.FrameKeepsOneShot` | app.py:86-119 | appending a frame's records keeps the session log free of a second red-light record for any vehicle, and the flagged set only grows |
| `App.FrameRecordsShape` | app.py:84-119 | one record per box in box order, each with the box's id, the frame number, the frame's queue length and density, and label RED iff the light is red; the count of violations is the number of records with rash or red |
| `App.Session.constructor` | app.py:34-52 | a session resets the violation memory and starts with an empty speed map, an empty log and frame 0 |
| `App.Session.ProcessFrame` | app.py:63-119 | the frame number goes up by one; the speed map and centroid memory are the first loop's folds; the flagged set, the appended records and the returned count are those of the violation pass using the inferred signal and the queue metrics; the log stays one-shot |
| `App.Session.UpdateSpeeds` | app.py:73-76 | one rash-driving call per box, each speed stored under the box's id; the flagged set is untouched |
| `App.Session.JudgeBoxes` | app.py:84-119 | second rash-driving call and red-light call per box, one record appended per box in order, violations counted |

## Left out

- Streamlit page set-up, file upload, metric widgets, video playback and the CSV download: presentation only.
- OpenCV decoding and encoding, the video writer, drawing of boxes, labels and the stop line, and the colour choice: I/O and rendering. Only the `violations_count` increment is kept.
- The detector/tracker `detect_and_track` is not part of this model; each frame's boxes are an input sequence.
- `STOP_LINE_Y = int(0.85 * h)` and `fps = cap.get(...)` come from float video metadata. The model takes `stopLineY: int`, `frameWidth: int` and `fps: real` as parameters.
- `round(...)` in the CSV rows and the pandas export: float formatting and serialisation.
- `Violations.ViolationMemory.DetectRashDriving`: the distance is a given function, and the model states only that it is a Euclidean norm (non-negative, square equal to `dx² + dy²`). The IEEE rounding of `math.hypot` and of the multiplication by `fps` is not modelled.
- The Python inputs to `get_queue_metrics` and `infer_signal_state` are not mutated. In the model they are values (`seq`, `map`), so this holds by construction and has no separate contract.
