# Nightwatch edge box: a verified model of the stateful engines

The edge box of this repository counts people across lines, follows step sequences, relays
H.264 over RTSP, buffers events while the backend is away, and decides which cameras it can
run. These Dafny files model that logic and prove what it keeps.

| file | part of the system |
|---|---|
| `common.dfy` | options, results, index sequences, bounded windows, sums over finite sets |
| `crossings.dfy` | sides of one tracked object, cut into maximal runs; the windowed crossing test |
| `geometry.dfy` | signed areas, the region of interest of a counting line, reversed lines |
| `line_zone.dfy` | the counting line: recorded traces, per-tracker windows, directional counters |
| `smoother.dfy` | the detections smoother: bounded windows, windowed means |
| `footfall.dfy` | one zone per drawn line, fed by the smoother, drained by deltas |
| `annexb.dfy` | Annex-B printer and parser |
| `ring.dfy` | the bounded frame ring and the viewer's drain loop |
| `relay.dfy`, `relay_reorder.dfy` | RTSP look-ahead, push-back, replay and pump as a protocol; exactly when it reorders frames |
| `sequence_engine.dfy` | the step-sequence matcher |
| `offline_queue.dfy` | the queue table, the client's drain and direct post |
| `drain_protocol.dfy` | the drain interleaved with enqueues, evictions and cut-offs |
| `drain_window.dfy` | when a drain cut short has a row answered twice: the exact condition |
| `iou.dfy` | the three overlap formulas |
| `person_tracker.dfy` | the greedy overlap tracker |
| `capacity.dfy` | declared capacity and its hysteresis controller |
| `supervisor.dfy` | difference, admission control, the reconcile pass |
| `supervisor_protocol.dfy` | cold start, reconcile and health check interleaved |
| `supervisor_race.dfy`, `supervisor_marks.dfy` | a run that replaces a live worker; when a rejection can go stale |
| `yolo_decision.dfy` | drop, escalate or emit; grouping of emitted detections |
| `viewer_slots.dfy` | the live-view slot counter and its change of owner |

The pattern is the same throughout. Code that updates state in place is a class or a method
with loops, proved equal to a specification function or relation (`Record`, `Split`, `Next`,
`Append`, `Pass`, `Decided`, ...). What the code is for is then proved about that
specification, over all inputs and all runs. Where tasks interleave, the same functions are
the steps of a state machine: `DrainProtocol.DrainIsRun` and `SupervisorProtocol.PassIsRun`
show that the uninterrupted methods are particular runs of those machines. Coordinates,
times and utilisations are real numbers; the length of a line is any `m >= 0` with
`m * m == dx * dx + dy * dy`.

## What the proofs found

- **A reader that gives up can reorder frames.** When parameter sets do not arrive in time, the
  look-ahead pushes the frames it took back into the ring "so we don't lose them". They land
  behind frames that arrived meanwhile, and in a full ring each one overwrites the oldest.
  `RelayReorder.ReordersIffLate` gives the exact condition for frames to be written out of push
  order: giving up with fewer frames in hand than the ring has places while the ring holds
  newer ones, or a push while fewer frames than that are still to be returned. With a whole ring's
  worth in hand (256 frames, agent/internal/supervisor/supervisor.go:17) every newer frame is
  overwritten instead, and order is kept by losing them; `Relay.NothingLostIff` says exactly
  which runs lose frames. `RelayReorder.GivingUpReorders` is a run in which the encoder gets
  the newer frame first. A failed stream or encoder set-up, or a lost race with another
  reader, drops the frames taken (`InitError` in `relay.dfy`).
- **A counting line of length zero keeps its camera, and others, from running.** The loader
  skips malformed lines because one mis-drawn line must not stop a camera, but a line whose
  ends coincide is well formed there and makes the counter's constructor fail
  (`Footfall.FootfallCounter.Create`). The worker builds that counter in its own constructor
  (agent/pipeline/camera_worker.py:48), which the supervisor calls outside its `try`
  (agent/pipeline/supervisor.py:289). So the exception leaves the pass: exactly the cameras
  listed before are decided (`Supervisor.StartAllStops`). Even on a box with room for all of
  them, the missing ones sorted after it stay down pass after pass, and so does every running
  camera whose stream changed, wherever it is sorted: the pass has stopped it by then
  (`Supervisor.RaisingBlocksLater`). At cold start, or when a health check restarts the
  camera, the exception ends the main task (`SupervisorProtocol.MainEndsExactly`).
- **A malformed assignment at cold start stops everything.** A later pass skips it; the cold
  start parses all assignments at once and no camera ever runs
  (`SupervisorProtocol.MalformedColdStart`).
- **A stale rejection can survive a reconcile pass.** With nothing running and nothing
  desired the pass returns early, before it clears rejected cameras
  (`Supervisor.PassSettles`, an if-and-only-if). That takes a failed start or an abandoned
  pass: `SupervisorMarks.StaleMarkReached` is a run with one failed start, and
  `SupervisorMarks.NeverStaleWhileStartsSucceed` shows that the case is unreachable otherwise.
- **A drain cut short can have a row accepted twice.** `DrainWindow.PostsTwiceIffCut` gives
  the exact condition: some drain is cut short, by cancellation or a failed queue call, while
  a row it has had answered is still stored. If overflow has evicted the answered rows, the
  cut is harmless, and so is one that comes while the delete is already on its way.
  `DrainWindow.CutShortAcceptsTwice` is a run.
- **The health check can replace a live worker without stopping it.** If a reconcile pass
  starts a flagged camera while the heartbeat is under way, the health check then replaces
  the new worker exactly when every camera flagged before it is still there and its worker
  can be built again (`SupervisorProtocol.FlaggedStartLeaksIff`); otherwise the health check
  ends with an exception first. `SupervisorRace.LiveWorkerReplaced` is a run.
- **The health loop can die for good.** A flagged camera that a pass stopped during the
  heartbeat, or one whose worker cannot be built again, ends the main task; after that
  nothing is measured and no health check restarts anything
  (`SupervisorProtocol.MainEndsExactly`, `SupervisorProtocol.EndedForGood`).
- **Measured capacity never limits admission.** It never exceeds the operator's ceiling, so
  the admission limit is that ceiling (`SupervisorProtocol.CeilingIsLimit`). A ceiling below
  1 takes capacity down to that ceiling (`Capacity.BoundsNeedPositiveCeiling`).
- **Alternation of in and out holds only for a crossing threshold of 1**
  (`Crossings.AlternationNeedsUnitThreshold`), which is what footfall uses.
- **An anchor exactly on the line reads as right of it, in both directions of drawing**
  (`Geometry.SingleAnchorFlips`).
- **The batch overlap and the scalar overlaps agree on all boxes**, inverted ones included,
  although the batch does not clip areas (`Overlap.OverlapsAgree`).

## Model

| member | source | states |
|---|---|---|
| Crossings.RunsDecompose | agent/pipeline/sv_vendor/line_zone.py:137-150 | A recorded trace of sides is exactly its maximal runs, in order: they are non-empty, alternate, and concatenate to the trace. |
| Crossings.RunsUnique | agent/pipeline/sv_vendor/line_zone.py:137-150 | No other list of maximal runs gives that trace, so "the runs of a tracker" is well defined. |
| Crossings.WindowSeesRun | agent/pipeline/sv_vendor/line_zone.py:146-155 | The test on the last threshold+1 stored sides succeeds exactly when the run in progress is not the tracker's first and has just reached the threshold length. |
| Crossings.WindowDetectsRuns | agent/pipeline/sv_vendor/line_zone.py:71-74 | For every threshold and every trace, one more side fires exactly the crossing by which the list of qualifying runs of the whole trace grows; each run counts once, when it reaches the threshold. |
| Crossings.TotalStep | agent/pipeline/sv_vendor/line_zone.py:146-162 | The number of qualifying runs towards a side grows by one exactly when the window test fires on that side. |
| Crossings.UnitThresholdAlternates | agent/pipeline/footfall.py:75-76 | With threshold 1 the crossings of a tracker alternate, and in minus out depends only on its first and last recorded side. |
| Crossings.AlternationNeedsUnitThreshold | agent/pipeline/sv_vendor/line_zone.py:50 | Every trace alternates if and only if the threshold is 1; for any larger one a given trace has two crossings in and none out. |
| Crossings.MirrorSwapsTotals | agent/pipeline/sv_vendor/line_zone.py:157-162 | Exchanging the sides of a whole trace exchanges its in and out totals, for every threshold. |
| Geometry.ZeroMagnitude | agent/pipeline/sv_vendor/geometry.py:46-56 | The length is zero exactly when the two ends coincide, so the constructor refuses exactly the degenerate lines. |
| Geometry.BetweenMeansOnSegment | agent/pipeline/sv_vendor/line_zone.py:166-196 | The test with two opposite unit perpendiculars accepts an anchor exactly when its projection lies on the closed segment. |
| Geometry.ReverseFlipsReading | agent/pipeline/sv_vendor/line_zone.py:224-233 | Reversing the line flips what is recorded of a box if and only if the box is ignored, has no anchor on the line, or has anchors strictly on both sides. |
| Geometry.SingleAnchorFlips | agent/pipeline/sv_vendor/line_zone.py:224-233 | With one anchor inside the limits, the side flips under reversal if and only if the anchor is off the line. |
| Geometry.AnchorInBox | agent/pipeline/sv_vendor/detections.py:101-150 | Each anchor lies at its own fraction of the width and the height of its box. |
| Geometry.AlwaysBeside | agent/pipeline/sv_vendor/geometry.py:71-90 | Every point lies some fraction of the way along a proper line and some multiple of its length to its left. |
| Geometry.ReadingInCoordinates | agent/pipeline/sv_vendor/line_zone.py:224-233 | From those two numbers for every anchor: nothing is recorded if an anchor is beyond an end of the line or the anchors are on both sides, and otherwise left exactly if they are to the left. |
| Traces.LineTotalStep | agent/pipeline/sv_vendor/line_zone.py:137-162 | One sighting raises the line's total over all trackers by one if it completes a qualifying run of its own tracker, and otherwise not at all. |
| Traces.UnitThresholdBalance | agent/pipeline/footfall.py:68-79 | Over a whole line with threshold 1, in minus out is the number of trackers last seen on the left minus the number first seen there. |
| Traces.RecordedSides | agent/pipeline/sv_vendor/line_zone.py:137-147 | What is recorded for a tracker is what it had and then the sides of its own sightings, in order. |
| Traces.UnitCompletes | agent/pipeline/footfall.py:75-76 | With threshold 1 a sighting counts exactly when its tracker was last recorded on the other side, and towards its own side. |
| Traces.SideSeen | agent/pipeline/sv_vendor/line_zone.py:198-235 | A box with all its anchors between the ends of the line and on one side of it is recorded on that side, wherever line and box lie. |
| Traces.CrossingTheLine | agent/pipeline/sv_vendor/line_zone.py:157-162 | Someone whose feet are seen right of a line and then left of it is one crossing in and none out; the other way round one out and none in. |
| Traces.ReversedLineMirrors | agent/pipeline/sv_vendor/line_zone.py:198-235 | Over any run of frames in which every box meets that condition, the reversed line records the mirror image of every tracker's trace. |
| Traces.ReversedLineSwapsCounts | agent/pipeline/sv_vendor/line_zone.py:82-88 | For every threshold and any such run of frames, among them all in which no anchor lies on the line, drawing the line the other way round exchanges its in and out counts. |
| LineZones.LineZone.constructor | agent/pipeline/sv_vendor/line_zone.py:69-76 | A new zone has recorded nothing and keeps threshold+1 sides per tracker, never fewer than two. |
| LineZones.LineZone.Create | agent/pipeline/sv_vendor/line_zone.py:69-79 | Construction fails exactly for a line whose ends coincide, else for an empty list of anchors, in that order. |
| LineZones.TestDecides | agent/pipeline/sv_vendor/line_zone.py:146-155 | The test on a tracker's stored window decides whether the sighting completes a qualifying run in that tracker's whole trace. |
| LineZones.CountedStep | agent/pipeline/sv_vendor/line_zone.py:157-162 | Bumping the class counter of a fired sighting keeps both counters equal to the declarative totals of everything recorded. |
| LineZones.LineZone.Observe | agent/pipeline/sv_vendor/line_zone.py:146-162 | One reading is appended to its tracker's trace; it fires exactly when it completes a qualifying run, and bumps only the counter of its own side and class. |
| LineZones.LineZone.Trigger | agent/pipeline/sv_vendor/line_zone.py:98-164 | A frame's flags mark exactly the sightings that complete a qualifying run in the whole trace so far, each class counter grows by its flags, and frames without tracker ids change nothing. |
| LineZones.CountsAreClasses | agent/pipeline/sv_vendor/line_zone.py:157-162 | Each class counter grows by the flagged detections of that class in the frame. |
| LineZones.LineZone.InCount | agent/pipeline/sv_vendor/line_zone.py:82-84 | The in count is the number of qualifying left runs over all trackers since construction. |
| LineZones.LineZone.OutCount | agent/pipeline/sv_vendor/line_zone.py:86-88 | The out count is the number of qualifying right runs over all trackers since construction. |
| LineZones.EntryIsIn | agent/pipeline/sv_vendor/line_zone.py:82-88 | A fresh zone of threshold 1 shown exactly that counts one in and none out, or one out and none in. |
| LineZones.SumValues | agent/pipeline/sv_vendor/line_zone.py:83-84 | Adding a counter's values in any order gives the sum over its classes. |
| Smoothing.MeanBounds | agent/pipeline/sv_vendor/smoother.py:74-76 | A windowed mean lies within any bounds that hold of the averaged values. |
| Smoothing.FrameHolds | agent/pipeline/sv_vendor/smoother.py:51-53 | A frame of the history holds each detection of the batch under its own id, with its box, confidence and class. |
| Smoothing.MeanOfOne | agent/pipeline/sv_vendor/smoother.py:74-76 | The mean of one detection is that detection. |
| Smoothing.MeanSnoc | agent/pipeline/sv_vendor/smoother.py:74-76 | One more detection moves the mean by its own share and no more. |
| Smoothing.MeanOrder | agent/pipeline/sv_vendor/smoother.py:74-76 | The order of the detections in a window does not matter to their mean. |
| Smoothing.MeanAverages | agent/pipeline/sv_vendor/smoother.py:74-76 | Each emitted value times the number of detections it averages is their sum over the frames of the window. |
| Smoothing.ClassIsOldest | agent/pipeline/sv_vendor/smoother.py:74 | The emitted class is that of the first frame of the window that shows the track. |
| Smoothing.EmittedWithinWindow | agent/pipeline/sv_vendor/smoother.py:65-77 | Every coordinate of an emitted box lies between bounds on that coordinate over the boxes of its own window. |
| Smoothing.EmittedIffSeenRecently | agent/pipeline/sv_vendor/smoother.py:51-63 | A track has something to emit exactly when one of the last `length` frames shows it. |
| Smoothing.FaithfulStep | agent/pipeline/sv_vendor/smoother.py:51-61 | One frame of appends, absences and deletions keeps the stored deques in agreement with the full history, through deletion and reappearance. |
| Smoothing.DetectionsSmoother.constructor | agent/pipeline/sv_vendor/smoother.py:35-41 | A new smoother agrees with the empty history. |
| Smoothing.DetectionsSmoother.AppendSlot | agent/pipeline/sv_vendor/smoother.py:53 | One append touches one track's deque, creates it if needed, and drops its oldest slot when full. |
| Smoothing.DetectionsSmoother.AppendDetections | agent/pipeline/sv_vendor/smoother.py:51-53 | Each track of the frame receives its own detection once; other tracks keep their deques. |
| Smoothing.DetectionsSmoother.AppendAbsences | agent/pipeline/sv_vendor/smoother.py:55-57 | Exactly the tracks missing from the frame receive an absence. |
| Smoothing.DetectionsSmoother.DropEmptied | agent/pipeline/sv_vendor/smoother.py:59-61 | Exactly the tracks whose deque holds only absences are deleted. |
| Smoothing.DetectionsSmoother.GetSmoothedDetections | agent/pipeline/sv_vendor/smoother.py:79-109 | The batch names each track seen in the last `length` frames once; each emitted coordinate and confidence, times the number of those frames that show the track, is its sum over them. Classes are present only if every track has one. |
| Smoothing.DetectionsSmoother.UpdateWithDetections | agent/pipeline/sv_vendor/smoother.py:43-63 | A tracked frame extends the history by itself and emits for each track the mean, over the last `length` frames, of its own boxes and confidences; a frame without ids is passed through and changes nothing. |
| Footfall.TotalsGrow | agent/pipeline/footfall.py:102-103 | A line's totals never decrease, whatever is recorded next. |
| Footfall.NetFlow | agent/pipeline/footfall.py:68-79 | In minus out of a footfall line is decided by where its trackers were first and last seen. |
| Footfall.BuildZones | agent/pipeline/footfall.py:68-79 | One zone per name, separate and empty, each watching the last line drawn under its name at the bottom centre of the boxes; building fails exactly if some line's ends coincide. |
| Footfall.FootfallCounter.constructor | agent/pipeline/footfall.py:64-83 | A new counter has reported nothing, every line's last-read totals are zero, and its zones watch the lines as drawn. |
| Footfall.FootfallCounter.Create | agent/pipeline/footfall.py:64-83 | Construction fails exactly when some drawn line has coinciding ends; otherwise there is a zone for exactly the drawn names, and each watches the line drawn under its own. |
| Footfall.FootfallCounter.Feed | agent/pipeline/footfall.py:102-103 | Triggering one zone leaves every other zone's trace alone. |
| Footfall.FootfallCounter.Update | agent/pipeline/footfall.py:85-103 | With lines and people, the smoother gains the tracked frame and every zone records the smoothed batch; otherwise nothing changes. |
| Footfall.FootfallCounter.CurrentTotals | agent/pipeline/footfall.py:109 | The two counters read together are the line's totals over its whole trace. |
| Footfall.FootfallCounter.ReadLine | agent/pipeline/footfall.py:109-115 | Reading one line reports its growth since it was last read and remembers its totals, leaving the zones and the other lines alone. |
| Footfall.FootfallCounter.ReadTotals | agent/pipeline/footfall.py:107-116 | Every line is read once; afterwards the remembered totals are the totals of all zones. |
| Footfall.FootfallCounter.Drain | agent/pipeline/footfall.py:105-116 | Reported deltas are never negative, and the sum of everything ever reported for a line equals its running total at this drain, wherever the drains fall. |
| AnnexB.SplitAccountsForEveryByte | agent/internal/republish/rtsp_server.go:309-336 | Any byte string is its leading bytes followed by start codes and payloads in order, and nothing else; neither the lead nor any payload holds another start code. |
| AnnexB.ReadingIsUnique | agent/internal/republish/rtsp_server.go:309-354 | A stream written as lead, codes and clean payloads is read back as exactly those, with 3-byte and 4-byte codes told apart. |
| AnnexB.SplitIsClean | agent/internal/republish/rtsp_server.go:330-332 | No slice the parser returns is empty or contains 00 00 01. |
| AnnexB.SplitOfClean | agent/internal/rtsp/client.go:35-46 | Units without 00 00 01, including those that end in zero bytes, survive printing and parsing in order, empty ones removed. |
| AnnexB.RoundTrip | agent/internal/rtsp/client.go:33-46 | Parsing a printed access unit gives back its non-empty units if and only if no unit contains 00 00 01. |
| AnnexB.SplitIsIdempotent | agent/internal/republish/rtsp_server.go:307-336 | For every byte string, printing what was parsed and parsing again changes nothing. |
| AnnexB.AuToAnnexB | agent/internal/rtsp/client.go:35-46 | The printer's output is the rendering of its units behind 4-byte codes, the form the parser is proved to invert. |
| AnnexB.NextStartCode | agent/internal/republish/rtsp_server.go:338-354 | The result is the first start code at or after the given place (a negative one counts as zero), or -1 if there is none. |
| AnnexB.SplitAnnexB | agent/internal/republish/rtsp_server.go:309-336 | The loop terminates on every input and delivers exactly the non-empty payloads of the stream's unique reading. |
| AnnexB.ContainsIDR | agent/internal/rtsp/client.go:50-60 | True exactly when some non-empty unit has type 5. |
| AnnexB.TypeBits | agent/internal/rtsp/client.go:55 | The type tested is the first byte without its upper three bits. |
| AnnexB.KeyframeSurvives | agent/internal/rtsp/client.go:48-60 | A clean access unit holds a key frame exactly when the units its reader parses from the bytes do. |
| Rings.Ring.constructor | agent/internal/buffer/ring.go:14-19 | A new ring is empty and holds at least one item. |
| Rings.Ring.Push | agent/internal/buffer/ring.go:21-32 | The ring becomes the last `cap` items of its contents and the new one; an overwritten item is the oldest and is counted as dropped. |
| Rings.Ring.Pop | agent/internal/buffer/ring.go:34-46 | The oldest item is handed out and the rest keep their order; an empty ring reports failure and stays as it is. |
| Rings.Ring.Conservation | agent/internal/buffer/ring.go:48-50 | At all times pushed = popped + held + dropped, and items leave and are held in push order. |
| Rings.DrainLatest | agent/webrtcsignal/viewer.go:213-223 | Whatever the publisher pushes between two pops, the viewer's inner loop ends with the ring empty and the newest frame ever pushed in hand, or reports that there was none. |
| Relay.Scan | agent/internal/republish/rtsp_server.go:170-184 | Parameter sets already found are kept; a missing one becomes the first unit of its type in the frame. |
| Relay.FirstOfMeaning | agent/internal/republish/rtsp_server.go:170-184 | The unit found is of its type and none before it is; none is found only if there is none. |
| Relay.StepConserves | agent/internal/republish/rtsp_server.go:163-195 | No step of publisher, look-ahead, push-back or pump duplicates a frame or loses one without counting it lost. |
| Relay.RunConserves | agent/internal/republish/rtsp_server.go:143-305 | In every run each pushed frame is written, in hand, in the ring or lost, exactly once. |
| Relay.StepKeepsOrder | agent/internal/republish/rtsp_server.go:189-195 | What is written and queued stays in push order unless the step gives up while the ring holds newer frames, or lets a frame in while older ones are being returned, and in either case what is returned does not fill the ring; exactly then it does not. |
| Relay.RunKeepsOrder | agent/internal/republish/rtsp_server.go:163-288 | Without such steps everything written or still to be written is in push order. |
| RelayReorder.WritesOut | agent/internal/republish/rtsp_server.go:156-288 | From any state, steps that are not late write out everything queued, in the order of the queue. |
| RelayReorder.OrderedIffSafe | agent/internal/republish/rtsp_server.go:156-288 | The queue is in push order if and only if no continuation without a late step writes frames out of order. |
| RelayReorder.ReordersIffLate | agent/internal/republish/rtsp_server.go:189-195 | A run never reaches a point from which frames can be written out of push order if and only if none of its steps is late, ring overflow included. |
| Relay.FramesInOrder | agent/internal/republish/rtsp_server.go:275-288 | Without such steps frames are written in push order; if no step loses frames either, exactly the first ones pushed, none missing or repeated. |
| Relay.LosesExactly | agent/internal/republish/rtsp_server.go:189-239 | A step loses frames if and only if it adds one to a full ring or is an initialisation that fails with frames in hand. |
| Relay.NothingLostIff | agent/internal/republish/rtsp_server.go:143-305 | A run loses nothing if and only if none of its steps does. |
| RelayReorder.GivingUpReorders | agent/internal/republish/rtsp_server.go:189-195 | A run in which the look-ahead times out once ends with the encoder given the newer frame before the older one, nothing lost. |
| Relay.StepScans | agent/internal/republish/rtsp_server.go:170-184 | Each step keeps the parameter sets found equal to the first ones among all units taken. |
| Relay.RunScans | agent/internal/republish/rtsp_server.go:160-188 | In every run the stream is set up with the first SPS and the first PPS among the frames it will replay. |
| SequenceEngine.SequenceState.constructor | agent/pipeline/sequence_engine.py:11-20 | A new track waits for the first step, with no clock reading yet. |
| SequenceEngine.Advance | agent/pipeline/sequence_engine.py:32-85 | A live track goes on exactly when the reading is in its step's zone and pose; otherwise it is skipped exactly on a later step's other zone, and otherwise timed out exactly past the step's limit. The events say which step, zone and limit. |
| SequenceEngine.NextDecides | agent/pipeline/sequence_engine.py:44-83 | What one reading decides, from zone, pose and time alone. |
| SequenceEngine.LaterZones | agent/pipeline/sequence_engine.py:63-67 | The zones collected are exactly those of later steps that differ from the current step's. |
| SequenceEngine.CompletedMeansEvent | agent/pipeline/sequence_engine.py:35-42 | A track is completed exactly when some reading so far returned an event, and from then on its state is frozen. |
| SequenceEngine.AtMostOneEvent | agent/pipeline/sequence_engine.py:35-42 | After an event no later reading returns another or changes the state. |
| SequenceEngine.GreedyIsOptimal | agent/pipeline/sequence_engine.py:52-61 | While a track is live its index is the length of the longest prefix of the steps that occurs in the readings as an in-order subsequence. |
| SequenceEngine.CompletedIffOccurs | agent/pipeline/sequence_engine.py:52-61 | Completion is reported at a reading if and only if it is the first by which all steps occur in order and the trace neither skipped a step nor overran a limit before, both read off the trace alone. |
| SequenceEngine.SkippedIffLaterZone | agent/pipeline/sequence_engine.py:63-74 | A skip is reported at a reading if and only if there the trace fails to match the step after the longest prefix that occurs and lies in a later step's zone, and nothing disturbed the sequence before. |
| SequenceEngine.TimedOutIffOverdue | agent/pipeline/sequence_engine.py:76-83 | A timeout is reported at a reading if and only if there the pending step is neither matched nor skipped and its limit since the reading that entered it is overrun, and nothing disturbed the sequence before. |
| SequenceEngine.SkipTells | agent/pipeline/sequence_engine.py:68-74 | A reported skip names the step that was pending and the zone reached. |
| SequenceEngine.TimeoutTells | agent/pipeline/sequence_engine.py:76-83 | A reported timeout names the pending step and its limit, and no reading since that step was entered matched it. |
| OfflineQueues.WithoutAllMeaning | agent/pipeline/offline_queue.py:94-101 | Deleting ids removes exactly the rows with those ids; the others keep payload, attempts and order. |
| OfflineQueues.InsertMeaning | agent/pipeline/offline_queue.py:50-68 | An insert keeps the table in id order and under its cap, evicts nothing while there is room, and evicts only rows older than every row kept. |
| OfflineQueues.OfflineQueue.constructor | agent/pipeline/offline_queue.py:31-46 | A fresh table is empty and its first id is 1. |
| OfflineQueues.OfflineQueue.Enqueue | agent/pipeline/offline_queue.py:50-68 | The new row gets an id never used before, and the table keeps its newest `max_rows` rows. |
| OfflineQueues.OfflineQueue.PeekBatch | agent/pipeline/offline_queue.py:70-92 | The batch is the decodable rows among the oldest ones, in order; the undecodable ones among them are deleted, and no other row. |
| OfflineQueues.OfflineQueue.Delete | agent/pipeline/offline_queue.py:94-101 | One statement per id leaves the table without all of them, valid and in order. |
| OfflineQueues.OfflineQueue.IncrementAttempts | agent/pipeline/offline_queue.py:103-111 | Only attempt counts change: ids, payloads and order stay. |
| OfflineQueues.Answered | agent/pipeline/api_client.py:200-231 | Posting stops at the first answer that is neither 201 nor 4xx: every answer before it is final. |
| OfflineQueues.PeekIsOldest | agent/pipeline/offline_queue.py:73-77 | What is read is the front of the table, the oldest rows, as many as the limit allows. |
| OfflineQueues.BumpedAllMeaning | agent/pipeline/offline_queue.py:103-111 | Exactly the named rows have one attempt more, and nothing else of any row changes. |
| OfflineQueues.DrainDecides | agent/pipeline/api_client.py:200-245 | Rows answered 201 or 4xx before the first other answer are gone; from that one on, a 5xx or lost connection included, the batch stays with one attempt more each; unread rows stay as they are. |
| OfflineQueues.ApiClient.DrainQueue | agent/pipeline/api_client.py:188-245 | An uninterrupted drain deletes the undecodable rows read and the longest answered prefix of the batch, and bumps exactly the rest of the batch. |
| OfflineQueues.ApiClient.PostEvent | agent/pipeline/api_client.py:50-88 | Success is exactly a 201; on a 201 or 4xx the queue and its ids stay as they are; on anything else, a lost connection included, the event is queued once, as the newest row. |
| DrainProtocol.StepShaped | agent/pipeline/api_client.py:192-245 | In every interleaving ids stay strictly increasing and are never reused, and what a drain will delete is exactly the answered prefix of its batch. |
| DrainProtocol.StepInv | agent/pipeline/api_client.py:188-245 | Every step keeps: each row is accounted for, only rows answered are to be deleted, and a row that can still be posted has no unexcused answer. |
| DrainProtocol.EveryRowAccountedFor | agent/pipeline/offline_queue.py:50-101 | In every run each row ever stored is still stored, was answered, was evicted or was undecodable, and each extra answer is paid for by a drain cut short. |
| DrainProtocol.EvictionIsOldestFirst | agent/pipeline/offline_queue.py:57-64 | In every run a row lost to overflow is older than every row stored. |
| DrainProtocol.DeleteRemovesOnlyAnswered | agent/pipeline/api_client.py:233-237 | A delete, however late and whatever was enqueued or evicted meanwhile, removes only rows that the backend answered. |
| DrainProtocol.DrainIsRun | agent/pipeline/api_client.py:188-245 | From any reachable resting state, the drain's own steps with nothing in between lead to exactly the table of the uninterrupted method. |
| DrainWindow.StepKeepsUnanswered | agent/pipeline/api_client.py:192-245 | That no row still to be posted has been answered survives a step if and only if the step does not cut the drain short while an answered row of it is stored. |
| DrainWindow.AnsweredAtMostOnce | agent/pipeline/api_client.py:188-245 | In every run without such a cut no row is answered twice, and at rest every stored row is unanswered. |
| DrainWindow.StepCoherent | agent/pipeline/offline_queue.py:70-92 | Every step keeps what a drain has read equal to what is stored, and only rows that decode are answered. |
| DrainWindow.AnsweredAgain | agent/pipeline/api_client.py:188-245 | From rest, any stored row that decodes gets one more answer in some run of drains alone, however deep in the table it lies. |
| DrainWindow.StoredAnswerRepeats | agent/pipeline/api_client.py:188-245 | A row stored at rest although it has been answered can always be continued to a second answer. |
| DrainWindow.PostsTwiceIffCut | agent/pipeline/api_client.py:182-245 | A run never reaches a point from which drains alone can have a row answered twice, if and only if no drain of it is cut short while an answered row of it is still stored. |
| DrainWindow.CutShortAcceptsTwice | agent/pipeline/api_client.py:268-280 | A drain cancelled after an answer and before the delete has its row accepted a second time by the next drain. |
| Overlap.UnionPositive | worker/person_tracker.py:28-34 | Once boxes share area their union is positive: the branch for a non-positive union is unreachable. |
| Overlap.OverlapsAgree | agent/pipeline/sv_vendor/iou.py:83-100 | Tracker, detector and batch formulas agree on every pair of boxes, degenerate and inverted ones included. |
| Overlap.IouRange | worker/person_tracker.py:18-34 | The overlap is symmetric, lies in [0, 1], and is positive exactly when the boxes share area. |
| Overlap.IouIsOne | agent/pipeline/nightwatch_locate.py:57-62 | The overlap is 1 exactly for a box of positive area and itself. |
| Overlap.IntersectionIsShared | worker/person_tracker.py:20-27 | The intersection is the area of the points that lie in both boxes. |
| Overlap.IouIsShare | worker/person_tracker.py:28-34 | The overlap is the shared area as a share of the area that either box covers. |
| Overlap.IosIsOne | agent/pipeline/sv_vendor/iou.py:90-99 | The other metric is 1 exactly when one of two boxes of positive area contains the other. |
| Overlap.Extents | agent/pipeline/sv_vendor/iou.py:67-81 | Reusing the upper-bound matrix in place yields, entry by entry, the clipped overlap of the two intervals. |
| Overlap.BoxIouBatch | agent/pipeline/sv_vendor/iou.py:43-100 | For the default metric every entry of the matrix is the scalar overlap of its two boxes; the other metric divides by the smaller area. |
| PersonTracking.GreedyDetermined | worker/person_tracker.py:58-76 | The greedy claims are determined by tracks and poses: no other list of claims satisfies the rule. |
| PersonTracking.ClaimsPartition | worker/person_tracker.py:55-72 | Claimed and unclaimed poses together are all poses, each once. |
| PersonTracking.ReturnedBijection | worker/person_tracker.py:78-88 | Returned tracks and input poses are in bijection, and the returned tracks have distinct, increasing ids. |
| PersonTracking.BestMatch | worker/person_tracker.py:60-67 | A track claims the first of the unclaimed poses with maximal overlap, if that is positive and reaches the threshold; it claims none exactly when none qualifies. |
| PersonTracking.PersonTracker.constructor | worker/person_tracker.py:42-47 | A new tracker has no tracks and numbers from 1. |
| PersonTracking.PersonTracker.DropAged | worker/person_tracker.py:50-53 | A track is kept exactly when it was seen within the time to live; ids, states and order are kept. |
| PersonTracking.PersonTracker.MatchTracks | worker/person_tracker.py:58-76 | Every surviving track takes one turn, in order, claiming greedily from what earlier ones left; one without a claim only counts a missed frame. |
| PersonTracking.PersonTracker.StartTracks | worker/person_tracker.py:78-87 | Each leftover pose gets one new track with the next unused id and its own fresh sequence state. |
| PersonTracking.PersonTracker.Update | worker/person_tracker.py:49-88 | The returned list is the tracker's own reused and new tracks, one per pose, each pose carried exactly once, with distinct increasing ids and no shared state. A track seen within the time to live goes on under its id with its state, seen again or missed once more; every other earlier id is gone. |
| PersonTracking.ReturnedAreTracks | worker/person_tracker.py:56-88 | Reused tracks followed by new ones are part of the tracker's list, in its order, with distinct increasing ids and no shared state. |
| PersonTracking.ReusedWasBest | worker/person_tracker.py:58-74 | Every reused track that is returned carries the pose that overlapped it most, enough and more than nothing, among those that earlier tracks had left unclaimed. |
| PersonTracking.TracksPersist | worker/person_tracker.py:50-76 | Every earlier track seen within the time to live goes on under its id with its state; every earlier id found afterwards belongs to such a track. |
| Capacity.DeclaredCapacity | agent/pipeline/capacity.py:70-92 | The estimate is at least 1 and within a positive ceiling; above 1 it fits processor cores and memory after the reserve. |
| Capacity.DeclaredIsGreatest | agent/pipeline/capacity.py:70-81 | The estimate is the greatest number of cameras that cores, memory and ceiling allow, or 1 if none greater is. |
| Capacity.CapacityTracker.constructor | agent/pipeline/capacity.py:98-103 | A tracker starts at its declared capacity with both streaks at zero. |
| Capacity.CapacityTracker.Observe | agent/pipeline/capacity.py:105-136 | Rounds above three quarters count as saturated and ones below three eighths on a full box as roomy; the fifth saturated one in a row sheds to the greatest number the box sustains, or to 1, the fifth roomy one adds a camera up to the ceiling, and other rounds only move the streaks. |
| Capacity.CapacityTracker.Set | agent/pipeline/capacity.py:138-143 | The source becomes measured only when the value changes. |
| Capacity.SaturationBound | agent/pipeline/capacity.py:127-130 | What a saturated box can sustain is at least 1 and fewer than the active cameras. |
| Capacity.SustainableIsGreatest | agent/pipeline/capacity.py:129 | Above 1, the sustainable numbers are exactly those whose cost at the observed rate fits three quarters of the box. |
| Capacity.ObservedMeaning | agent/pipeline/capacity.py:105-136 | One round in plain numbers: streaks, the greatest sustainable number on the fifth saturated one, one camera more on the fifth roomy one. |
| Capacity.ObservedSound | agent/pipeline/capacity.py:105-136 | A round keeps capacity between 1 and the ceiling and at most one streak positive; growth is by one, on the fifth roomy round; shrinking only on the fifth saturated one. |
| Capacity.FifthSaturatedRoundSheds | agent/pipeline/capacity.py:127-132 | The fifth saturated round in a row lowers capacity, to at most max(1, active-1), unless it is 1 already. |
| Capacity.RunSound | agent/pipeline/capacity.py:98-136 | Those bounds hold after any run of rounds. |
| Capacity.RevisionsAreRare | agent/pipeline/capacity.py:41-43 | A run with n active rounds revises capacity at most n/5 times. |
| Capacity.OverCountsTail | agent/pipeline/capacity.py:117-132 | In a saturated stretch, with idle rounds anywhere in it, the streak is the number of its saturated rounds modulo 5. |
| Capacity.EveryFifthSheds | agent/pipeline/capacity.py:127-132 | In such a stretch every fifth saturated round lowers capacity until it is 1. |
| Capacity.BoundsNeedPositiveCeiling | agent/pipeline/capacity.py:133-136 | Capacity stays at least 1 in every run if and only if the ceiling is at least 1, and then never exceeds it; below that, five quiet rounds bring it to the ceiling. |
| Supervisor.Sorted | agent/pipeline/supervisor.py:49-50 | The list holds each member of the set once, in ascending order. |
| Supervisor.ComputeDiff | agent/pipeline/supervisor.py:33-59 | The four sorted lists are exactly the cameras to start, stop, restart (stream changed) and update (stream unchanged). |
| Supervisor.StartAllDecides | agent/pipeline/supervisor.py:186-187 | If starts succeed, every listed camera runs with its configuration or is rejected, not both, and is rejected only on a full box; as many run as the limit allows; others are untouched. |
| Supervisor.StartAllStops | agent/pipeline/supervisor.py:277-295 | Whatever the outcomes, exactly the cameras listed before the first exception are decided, each by the room left at its turn; those from there on are left down and unmarked. |
| Supervisor.ReachIsFirst | agent/pipeline/supervisor.py:280-289 | The exception that ends the list is the first camera whose worker cannot be built while there is still room for it. |
| Supervisor.RaisingBlocksLater | agent/pipeline/supervisor.py:186-187 | With room for everything desired, a missing camera whose worker cannot be built ends every pass, keeps every missing camera sorted after it down, and leaves every running camera that had to be restarted stopped. |
| Supervisor.PassSettles | agent/pipeline/supervisor.py:146-194 | A pass without failed starts ends with running and rejected disjoint and together the desired set, min(max_cameras, desired) running with their configurations, if and only if it is not the early return over a stale rejection. |
| Supervisor.SecondPassChangesNothing | agent/pipeline/supervisor.py:166-187 | On a settled fleet, another pass on the same input changes neither workers nor rejections. |
| Supervisor.DesiredWellKeyed | agent/pipeline/supervisor.py:152-159 | Each desired configuration is filed under its own camera, whatever assignments are malformed or repeated. |
| Supervisor.DesiredIsDesired | agent/pipeline/supervisor.py:152-159 | A camera is desired exactly when some well-formed assignment has its id, and then with the configuration of the last of them; malformed assignments change nothing. |
| Supervisor.WorkerSupervisor.constructor | agent/pipeline/supervisor.py:69-80 | A new supervisor runs and rejects nothing. |
| Supervisor.WorkerSupervisor.StartWorker | agent/pipeline/supervisor.py:264-295 | A running camera is left alone, a full box rejects, a successful start clears the rejection, a failed one changes nothing; an exception leaves exactly when the worker of a missing camera cannot be built and there is room for it. |
| Supervisor.WorkerSupervisor.StopWorkers | agent/pipeline/supervisor.py:169-173 | Exactly the listed cameras stop running. |
| Supervisor.WorkerSupervisor.UpdateWorkers | agent/pipeline/supervisor.py:175-179 | The listed workers get their desired configuration and keep running; no other worker changes. |
| Supervisor.WorkerSupervisor.StartWorkers | agent/pipeline/supervisor.py:186-187 | The cameras are admitted one by one in list order, against one limit, up to the first exception. |
| Supervisor.WorkerSupervisor.ReconcileOnce | agent/pipeline/supervisor.py:146-194 | An unreachable backend changes nothing; otherwise a camera is desired exactly when a well-formed assignment has its id, as the last such one says, and the new state, and whether the pass ended in an exception, is the pass over the true difference to that. |
| Supervisor.WorkerSupervisor.StopAll | agent/pipeline/supervisor.py:316-319 | Nothing runs afterwards, and rejections are kept. |
| SupervisorProtocol.CeilingIsLimit | agent/pipeline/supervisor.py:280 | In every reachable state the admission limit is the operator's ceiling: measured capacity never raises it. |
| SupervisorProtocol.StepInv | agent/pipeline/supervisor.py:146-194 | Every step of cold start, reconcile and health check keeps the worker limit, the disjointness of running and rejected, and the controller's bounds. |
| SupervisorProtocol.AdmissionHolds | agent/pipeline/supervisor.py:264-295 | In every interleaving capacity is between 1 and the ceiling, no more cameras run than the ceiling, and none is both running and rejected. |
| SupervisorProtocol.RestartNeverRefused | agent/pipeline/supervisor.py:360-365 | Restarting a flagged worker is never refused by admission control; if it starts, the same cameras run as before, and only a worker that cannot be built ends the health check. |
| SupervisorProtocol.RestartsOnlyDead | agent/pipeline/supervisor.py:321-365 | While the flagged cameras are dead or gone no live worker is replaced, and a step ends that guarantee exactly when the pass starts a missing flagged camera for which there is room. |
| SupervisorProtocol.NothingLeaks | agent/pipeline/supervisor.py:321-365 | In any run without such a start, no live worker is ever replaced. |
| SupervisorProtocol.RestartsReplaceLiveIff | agent/pipeline/supervisor.py:360-365 | The restarts of a health check replace a live worker if and only if a flagged camera has one and the flagged cameras before it are still there and can be built again. |
| SupervisorProtocol.FlaggedStartLeaksIff | agent/pipeline/supervisor.py:351-365 | When a pass starts a flagged camera during the heartbeat, the restarts replace its new, live worker if and only if the flagged cameras before it are still there and can be built again. |
| SupervisorProtocol.MainEndsExactly | agent/pipeline/supervisor.py:94-105 | The main task ends exactly at a cold-start worker that cannot be built with room for it, at a flagged camera that is gone after the heartbeat, or at a restart whose worker cannot be built. |
| SupervisorProtocol.EndedForGood | agent/pipeline/supervisor.py:99-105 | After that nothing is measured or restarted in any run, and if it was the cold start no pass ever runs. |
| SupervisorProtocol.MalformedColdStart | agent/pipeline/supervisor.py:124-133 | One assignment that does not parse at the cold start, and no camera ever runs. |
| SupervisorProtocol.PassIsRun | agent/pipeline/supervisor.py:146-194 | The reconcile task's own steps with nothing in between lead to exactly the fleet of the uninterrupted pass. |
| SupervisorRace.LiveWorkerReplaced | agent/pipeline/supervisor.py:351-365 | A run in which a pass restarts a flagged camera during the heartbeat ends with a live worker replaced and never stopped. |
| SupervisorMarks.NeverStaleWhileStartsSucceed | agent/pipeline/supervisor.py:166-187 | In every run without a failed start or an abandoned pass, no pass begins with nothing running and a camera marked rejected. |
| SupervisorMarks.StaleMarkReached | agent/pipeline/supervisor.py:166-184 | A run with one failed start ends with nothing running and a rejection that a pass wanting nothing leaves in place. |
| YoloDecision.MapDetections | agent/pipeline/yolo_detector.py:97-119 | Each detection yields at most one candidate, in order: a person in a zone is an intrusion if those are enabled. |
| YoloDecision.PersonOrIntrusion | agent/pipeline/yolo_detector.py:100-105 | With intrusions enabled no person counts twice: persons are exactly those outside every zone, intrusions those inside one. |
| YoloDecision.GroupByZone | agent/pipeline/yolo_detector.py:184-187 | The dictionary holds, for exactly the zones that occur and in order of first appearance, all intrusions of that zone in order. |
| YoloDecision.BuildEvents | agent/pipeline/yolo_detector.py:159-204 | The events built are one per non-empty group, types first, then zones in order of appearance. |
| YoloDecision.EventsLoseNothing | agent/pipeline/yolo_detector.py:159-204 | Every candidate's box is in exactly one event, counted with multiplicity. |
| YoloDecision.EventsStandForGroups | agent/pipeline/yolo_detector.py:162-203 | Every event stands for one non-empty group, all candidates of its type and zone, with their greatest confidence. |
| YoloDecision.Decide | agent/pipeline/yolo_detector.py:128-156 | Escalate if an enabled type is outside the fast path; otherwise drop exactly if every relevant detection is below the floor, emit exactly if one reaches floor and fast path, escalate in between; an emission shows exactly the boxes of the relevant detections that reach the fast path, one event per type and intrusion zone. |
| YoloDecision.CandidateCounts | agent/pipeline/yolo_detector.py:107-118 | A detection counts as at most one type: vehicles and animals by class, a person as an intrusion exactly in a zone with intrusions enabled. |
| YoloDecision.EnabledFrom | agent/pipeline/yolo_detector.py:145 | The enabled candidates stand for exactly the relevant detections. |
| YoloDecision.DecisionMeaning | agent/pipeline/yolo_detector.py:141-156 | The three-way decision in terms of the detections and the two bounds alone. |
| YoloDecision.EmissionShows | agent/pipeline/yolo_detector.py:155-156 | An emission shows exactly the boxes of the relevant detections that reach the fast path, each labelled with its class. |
| YoloDecision.EmissionKinds | agent/pipeline/yolo_detector.py:162-203 | Each event shows exactly the detections of its type, and of its zone for an intrusion, and no two events are of the same type and zone. |
| YoloDecision.EmissionIsComplete | agent/pipeline/yolo_detector.py:155-156 | An emission has every qualifying candidate's box exactly once, in non-empty events of enabled types whose confidence reaches the fast-path bound. |
| YoloDecision.DecisionIsMonotone | agent/pipeline/yolo_detector.py:128-156 | Appending detections never moves the decision down the order drop, escalate, emit. |
| ViewerSlots.ViewerServer.constructor | agent/webrtcsignal/viewer.go:44-46 | A new server has no session and the default limit. |
| ViewerSlots.ViewerServer.SetMaxSessions | agent/webrtcsignal/viewer.go:48-58 | A limit that is not positive restores the default; running sessions stay. |
| ViewerSlots.ViewerServer.AcquireSession | agent/webrtcsignal/viewer.go:60-69 | A slot is taken exactly when the count is below the limit; a refusal changes nothing. |
| ViewerSlots.ViewerServer.ReleaseSession | agent/webrtcsignal/viewer.go:71-78 | One slot is given back, never below zero. |
| ViewerSlots.ViewerServer.HandleOffer | agent/webrtcsignal/answer.go:51-148 | An offer succeeds exactly if secret, token, camera, slot and every negotiation stage are good, and the first bad one names the error; the count grows by one on success and is unchanged by any failure. |
| ViewerSlots.StepInv | agent/webrtcsignal/answer.go:70-88 | Every step keeps the count equal to slots held by negotiations plus slots held by pumps, with one release per ended session. |
| ViewerSlots.ReleaseFindsSlot | agent/webrtcsignal/viewer.go:71-78 | A release never finds the count at zero, so each gives back exactly one slot. |
| ViewerSlots.CountBounded | agent/webrtcsignal/viewer.go:60-69 | Only an accepted offer raises the count, never above the limit in force; lowering the limit evicts nobody. |
| ViewerSlots.SlotsConserved | agent/webrtcsignal/answer.go:142-145 | In every interleaving the count is the sessions holding a slot, no session is released twice, and the count never exceeds the highest limit there was. |
| ViewerSlots.AllSlotsReturn | agent/webrtcsignal/viewer.go:188-196 | Once every session has ended, all slots are free again. |

## Left out

- Floating-point rounding: coordinates, areas, means, utilisations and times are exact reals, so nothing is said about ties or bounds that rounding may move.
- ByteTrack's matching (agent/pipeline/sv_vendor/byte_tracker and agent/pipeline/person_tracker.py): the ids it returns are arbitrary input, distinct within a frame where the smoother needs that.
- LineZones.LineZone.Trigger: class names and the warning text are left out, and the anchor that needs a mask (center of mass) is not one of the positions.
- Smoothing.DetectionsSmoother.GetSmoothedDetections: the order of the emitted tracks is left open, and the deep copies of detections are values.
- Footfall.FootfallCounter.Update: the tracker's answer for the frame is a parameter, and `lines_from_config` is not modelled (it only skips entries that do not parse).
- PersonTracking.PersonTracker.Update: tracks are values in a list ordered by id, so a caller's alias of a returned track object is not captured; the sequence state is a reference and is.
- SequenceEngine.Advance: the step list is fixed or at least not shortened under a live track; replacing it by a shorter one can make the index run out of range. Building the event text is left out.
- OfflineQueues.OfflineQueue.Enqueue: SQLite and file errors are left out; a queue call that fails ends the drain in `drain_protocol.dfy`.
- OfflineQueues.ApiClient.PostEvent: the drain it spawns on success is the protocol's Start step, and the case without a queue is left out.
- DrainWindow.AnsweredAtMostOnce: one client; several clients that open the same database each have their own drain lock, an answer lost on the way back counts as no answer, and a delete that is already running when its drain is cancelled counts as done before the cut.
- Relay.FramesInOrder: one reader initialises the stream; the deadline is a step that may come at any time, a frame without any unit counts as written although the encoder is never called for it, and RTP timestamps, encoding errors and the pump's exit when its camera is removed are left out.
- Supervisor.WorkerSupervisor.ReconcileOnce: one uninterrupted pass with each start's outcome (it runs, it fails, its worker cannot be built) as a parameter; why a worker cannot be built, an `update_config` that raises, and the setup loop are left out. Camera ids are ranks, so their order as text is not modelled.
- SupervisorProtocol.StepInv: the health check appears as one step up to its heartbeat and one per restart; a failing heartbeat, shutdown, and the video server between cold start and health loop are left out; the utilisation it measures is arbitrary input, and the load factor and load state it derives from these counts are left out.
- YoloDecision.MapDetections: which zone holds a detection's centre is a parameter, so polygon membership and its cache are left out, as is `point_in_polygon`. Event descriptions are left out.
- ViewerSlots.ViewerServer.HandleOffer: token verification, camera lookup and each WebRTC stage are outcomes given as parameters.
- Snapshot rules and their cool-down in agent/pipeline/nightwatch_locate.py: only the box overlap is modelled; the rest would add easier members.
- ONNX, FFmpeg, Gemini, HTTP, WebRTC media, backend routes, the assignment cache, backoff and configuration parsing.
