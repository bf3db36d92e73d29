# pathpal perception fusion, modelled in Dafny

pathpal is a wearable navigation aid. A camera thread publishes the newest frame. Worker
threads run a COCO object detector and a face detector on it. The main loop fuses their results
into spoken-style events: which side the largest person or face is on, and, from the range
reading in the shared state, how far away an obstacle is and in which direction. An event
policy stops the same message from being repeated and enforces a cooldown between messages.

An ultrasonic sensor module is written to publish that range reading, but as the main program
stands it never runs. `UltrasonicModule()` is only appended to the `modules` list
(src/v1/pathpal_pipeline_v1.py:51-52). That list is read only by a loop that is commented out
(lines 107-113), and workers exist only for the COCO and face modules (lines 65-69). So
`range_cm`, which only the ultrasonic module writes (src/v1/ultrasonic_module.py:74), stays
absent, and the range events (src/v1/pathpal_pipeline_v1.py:174-178) never fire in the program
as written. The model keeps both the ultrasonic module and the range rule, as the code states
them. `Pipeline.Messages` states that without a range reading there is no range event, and
`Pipeline.MainLoop.Step` states that the loop never writes `range_cm` itself.

This project models that fusion core as Dafny modules, one per source file:

- `Types` (`det.dfy`): the detection value `Det(className, score, bbox)`, boxes, frames and `Option`.
- `Seqs` (`seqs.dfy`): order-preserving filtering and a stable sort by descending key.
  They play the part of Python's list comprehensions and `sorted(..., reverse=True)`.
- `Nms` (`nms.dfy`): the integer IoU and class-wise non-maximum suppression.
  Grouping, the per-label loop and the greedy pass are imperative methods. The final sort is
  the function `Seqs.SortByKeyDesc`. They are proved against the predicates `Separated` (kept boxes of one label overlap less than the threshold) and
  `Covered` (every dropped detection has a same-label suppressor scoring at least as high).
- `Utils` (`utils.dfy`): the side of the frame a box lies in, and box clamping.
- `Policy` (`event_policy.dfy`): the de-duplicating event policy.
  It has a pure decision function, a run over many calls, and the `EventPolicy` class whose `Emit` follows it.
- `Cadence` (`module.py`'s `Module`, in `module.dfy`): the next-due-time gate.
- `SharedState` (`state.dfy`): the shared state dictionary, as a class.
- `Ultrasonic` (`ultrasonic.dfy`): reading validation, the bounded history and the upper-median smoothing.
- `Coco` (`coco.dfy`): the post-processing loop of the detector and the module's wanted-label filter.
- `Face` (`face.dfy`): the person gate of the face module.
- `Worker` (`worker.dfy`): the module worker's frame cell, its loop step and the 30-entry timing window.
- `Grabber` (`grabber.dfy`): the frame grabber's publish step, drift-correcting pacing and `get_latest`.
- `Pipeline` (`pipeline.dfy`): the main loop's frame skip, the person, face and range cues,
  and the choice of the direction target. Events are a datatype.

Threads become `Step` methods. Each clock reading, camera answer and sensor reading is a parameter of the step.

## Model

| member | source | states |
|---|---|---|
| Types.Area | src/v1/pathpal_pipeline_v1.py:129 | the area key `(x2-x1)*(y2-y1)`: non-negative for an ordered box, zero for a flat box, and positive for a box inverted on both axes because the factors are not clamped |
| Nms.Iou | src/v1/nms.py:6-21 | `_iou` always lies in [0, 1], and is 0 exactly when the clipped intersection is not positive |
| Nms.IouRange | src/v1/nms.py:13-21 | IoU is 0 when the clipped intersection is ≤ 0 or the union is ≤ 0; with a positive intersection the union is positive, IoU lies in (0, 1] and IoU × union = intersection |
| Nms.RatioRange | src/v1/nms.py:16-21 | the guarded division on intersection and union areas: 0 for no overlap, otherwise in (0, 1] with ratio × union = intersection, given union ≥ intersection |
| Nms.InterWithinDenom | src/v1/nms.py:13-20 | the intersection is at most either clamped area, so a positive intersection gives a union at least as large |
| Nms.IouBelowThreshold | src/v1/nms.py:6-21 | the threshold test without division: IoU < thresh iff 0 < thresh for disjoint boxes, and iff inter < thresh × denom otherwise |
| Nms.RatioBelowThreshold | src/v1/nms.py:16-21 | the same equivalence on the intersection and union areas |
| Nms.IouSymmetric | src/v1/nms.py:6-21 | IoU does not depend on argument order |
| Nms.IouIsSymmetric | src/v1/nms.py:6-21 | `Iou` satisfies the symmetry that the suppression proofs assume |
| Nms.NmsDets | src/v1/nms.py:23-48 | empty input gives empty output; the output is a sub-multiset of the input (hence no longer); it is sorted by non-increasing score; same-label kept boxes have IoU < thresh; every dropped detection has a kept same-label suppressor scoring at least as high with IoU ≥ thresh |
| Nms.GroupByLabel | src/v1/nms.py:32-34 | the label list has no repeats and matches the map's keys; every input label is a key; each label maps to its detections in input order |
| Nms.GroupingStep | src/v1/nms.py:33-34 | one `setdefault(...).append` iteration extends the grouping invariant by one detection |
| Nms.LabelStep | src/v1/nms.py:33-34 | appending a detection extends its own label's group and leaves every other label's group as it was |
| Nms.SuppressEachLabel | src/v1/nms.py:36-42 | after all labels: output labels are among the handled ones, output ⊆ input as multisets, output separated, every dropped detection of a handled label has a suppressor |
| Nms.SuppressLabel | src/v1/nms.py:36-42 | handling one more label (sort, greedy pass, extend) extends that invariant to the label |
| Nms.SuppressGroup | src/v1/nms.py:37-41 | greedy pass over a score-sorted group: kept ⊆ group, kept separated, every dropped detection has a suppressor in kept, and the top-scoring detection is kept first |
| Nms.KeepStep | src/v1/nms.py:39-41 | keeping a detection that overlaps every kept one less than thresh preserves the greedy invariant |
| Nms.DropStep | src/v1/nms.py:39-41 | dropping a detection that overlaps some kept one by at least thresh preserves it; the sort gives that suppressor a score at least as high |
| Nms.GroupStep | src/v1/nms.py:42 | `out.extend(kept)` for a fresh label extends the per-label invariant |
| Nms.GroupCounts | src/v1/nms.py:42 | the extended output is still a sub-multiset of the input, because the labels are disjoint |
| Nms.GroupSeparated | src/v1/nms.py:42 | the extended output is still separated, because labels differ across groups |
| Nms.GroupCovered | src/v1/nms.py:42 | suppressors of dropped detections remain in the extended output |
| Nms.SortKeepsSeparated | src/v1/nms.py:45 | the final sort by score keeps the output separated |
| Nms.InsertKeepsSeparated | src/v1/nms.py:45 | one insertion step of the stable sort keeps a separated sequence separated |
| Nms.SuppressorsSurvivePermutation | src/v1/nms.py:45 | reordering the survivors keeps every dropped detection's suppressor among them |
| Nms.LabelRepresented | src/v1/nms.py:32-41 | no cross-label suppression: each input detection is matched in the output by one of its label scoring at least as high |
| Nms.BestOfLabelSurvives | src/v1/nms.py:32-41 | the highest-scoring detection of each label survives, up to a tie in score |
| Seqs.SortByKeyDesc | src/v1/nms.py:37 | `sorted(group, key=score, reverse=True)`: a permutation of the input, sorted by non-increasing key |
| Seqs.InsertAfterEqual | src/v1/nms.py:45 | inserting after all keys ≥ its own keeps the order and adds exactly that element |
| Seqs.Filter | src/v1/coco_detector.py:26 | a list comprehension with a condition is no longer than its input |
| Seqs.FilterAppend | src/v1/coco_detector.py:26 | filtering commutes with concatenation, so the kept elements stay in input order |
| Seqs.FilterMember | src/v1/coco_detector.py:26 | an element is in the filtered list iff it is in the input and satisfies the condition |
| Utils.SideFromBbox | src/v1/utils.py:6-13 | left iff 3(x1+x2) < 2w; right iff 3(x1+x2) > 4w (and not left); center iff 2w ≤ 3(x1+x2) ≤ 4w, so a centre on a third line is center |
| Utils.SideIgnoresY | src/v1/utils.py:7 | the side depends on x1, x2 and w only, never on y |
| Utils.ClampBbox | src/v1/utils.py:144-154 | the result is ordered; for w, h ≥ 1 it lies in [0, w-1] × [0, h-1]; it holds the clamped corners, swapped into order; a box already inside and ordered comes back unchanged |
| Utils.ClampIdempotent | src/v1/utils.py:144-154 | clamping twice is clamping once |
| Policy.Decide | src/v1/event_policy.py:12-20 | a repeat of the last message is dropped whatever the time; a new message inside the cooldown is dropped; otherwise it is delivered and the state becomes (msg, now); a dropped call changes nothing |
| Policy.Run | src/v1/event_policy.py:12-20 | a sequence of calls delivers at most as many messages as calls |
| Policy.RunAppend | src/v1/event_policy.py:12-20 | running two batches of calls one after the other equals running them together |
| Policy.RunSpaced | src/v1/event_policy.py:14-20 | consecutive deliveries never repeat a message and are at least the cooldown apart, with no assumption on the clock; the final state records the last delivery; deliveries are calls that were made |
| Policy.RepeatsDeliverOnce | src/v1/event_policy.py:14-15 | repeating one message delivers it at most once, and never if it was already the last message |
| Policy.EventPolicy.constructor | src/v1/event_policy.py:7-10 | a fresh policy has no last message and last time 0.0 |
| Policy.EventPolicy.Emit | src/v1/event_policy.py:12-20 | the delivery flag and the new fields are exactly what `Decide` gives for the old fields |
| Cadence.Period | src/v1/module.py:15 | the period is positive and at most 10^6 s; it is 1/hz for hz ≥ 1e-6 and 10^6 for smaller, zero or negative hz |
| Cadence.Module.constructor | src/v1/module.py:8-9 | a fresh module's next due time is 0.0 |
| Cadence.DueStaysDue | src/v1/module.py:11-12 | `should_run` is monotone in time: a module that is due stays due at every later time until `mark_ran` |
| Cadence.Module.MarkRan | src/v1/module.py:14-15 | the due time becomes now + period, from `now` alone; afterwards `ShouldRun(s)` holds exactly for s ≥ now + period |
| Cadence.FreshModuleDue | src/v1/module.py:8-12 | a fresh module is due at every now ≥ 0 |
| SharedState.FusionState.constructor | src/v1/pathpal_pipeline_v1.py:42-47 | the state starts with no detections, no faces, no person and no range or clock keys |
| SharedState.FusionState.PutCoco | src/v1/coco_detector.py:27-32 | the COCO module's three keys take the given values and every other key keeps its value |
| Ultrasonic.ReadCm | src/v1/ultrasonic_module.py:42-59 | None for a sensor failure or a negative proportion; otherwise proportion × 100 exactly when it lies in (0, maxDistance × 100], else None |
| Ultrasonic.Push | src/v1/ultrasonic_module.py:70 | a deque with `maxlen` keeps the newest `maxLen` of history + [x]; the oldest entry is evicted first; the new value is last |
| Ultrasonic.SortAscending | src/v1/ultrasonic_module.py:73 | `sorted(hist)` is a permutation of the history, in ascending order |
| Ultrasonic.UpperMedian | src/v1/ultrasonic_module.py:73 | the median is an element of the history |
| Ultrasonic.MedianBoundsBelow | src/v1/ultrasonic_module.py:73 | more than half of the history (len/2 + 1 entries) is ≤ the median |
| Ultrasonic.MedianBoundsAbove | src/v1/ultrasonic_module.py:73 | at least len − len/2 entries are ≥ the median |
| Ultrasonic.UltrasonicModule.constructor | src/v1/ultrasonic_module.py:28-40 | configuration stored, empty history, history bound respected |
| Ultrasonic.UltrasonicModule.Process | src/v1/ultrasonic_module.py:61-78 | disabled: no change. Invalid reading: only `range_raw_cm` is cleared and `range_cm` is left stale. Valid reading: raw value stored, history pushed and kept within its bound, `range_cm` = upper median, `range_ts` = `now_ts` or 0.0, `obstacle_near` iff median ≤ near threshold. No other key changes |
| Coco.NatToString | src/v1/coco_detector.py:109 | decimal digits of a natural number, non-empty |
| Coco.ParseNatToString | src/v1/coco_detector.py:109 | reading the digits back gives the number |
| Coco.IntToString | src/v1/coco_detector.py:109 | a minus sign exactly for negative numbers, followed by the digits of the absolute value |
| Coco.ClassName | src/v1/coco_detector.py:109 | the fallback name starts with "class_" and is longer than that prefix |
| Coco.ResolveLabel | src/v1/coco_detector.py:108-113 | in range: `labels[cls]`, unless it is "???" or "background" with a next entry, which is then used; out of range: `class_<cls>` |
| Coco.Records | src/v1/coco_detector.py:103-121 | one resolved detection per slot |
| Coco.RecordsAt | src/v1/coco_detector.py:103-121 | slot i resolves to detection i |
| Coco.SlotCount | src/v1/coco_detector.py:104 | `min(num, len(scores))` bounded by the number of slots, 0 for negative num |
| Coco.CocoDetector.constructor | src/v1/coco_detector.py:42-44 | the labels and threshold are stored |
| Coco.CocoDetector.Infer | src/v1/coco_detector.py:103-121 | the result is the resolved slots before the slot count, in slot order, without those scoring below the threshold |
| Coco.InferMembers | src/v1/coco_detector.py:103-121 | a detection is returned iff it scores at least the threshold and resolves a slot before the slot count |
| Coco.WantedMembers | src/v1/coco_detector.py:25-26 | the comprehension over `IsWanted`/`Wanted` keeps a detection exactly when it is in the input and its label is one of person, car, bus, truck, bicycle, motorcycle |
| Coco.PersonsOfWanted | src/v1/coco_detector.py:25-32 | picking persons out of the wanted detections equals picking them out of all detections |
| Coco.CocoModule.constructor | src/v1/coco_detector.py:15-18 | the detector has score threshold 0.45 |
| Coco.CocoModule.Process | src/v1/coco_detector.py:20-32 | `coco_dets` is the wanted-label detections in detector order; `persons` is its order-preserving person sublist; `person_present` iff a person is among them; nothing else changes |
| Face.FaceModule.Process | src/v1/face_module.py:24-44 | without a person present the faces become [] with no detector call; otherwise each finding becomes a "face" detection with its score and box, in order; only `faces` changes |
| Worker.Newest | src/v1/module_worker.py:55-57 | the newest n entries: length min(len, n) |
| Worker.Record | src/v1/module_worker.py:55-57 | append then `pop(0)` past 30: the new duration is last; below the window nothing is evicted; at or above it exactly the oldest entry goes; a window of at most 30 stays within 30 |
| Worker.RecordKeepsNewest | src/v1/module_worker.py:55-57 | append then `pop(0)` past 30 keeps exactly the 30 most recent durations, in order |
| Worker.ModuleWorker.constructor | src/v1/module_worker.py:7-19 | no frame, timestamp 0.0, not running, no timings |
| Worker.ModuleWorker.Start | src/v1/module_worker.py:21-24 | sets the running flag with no already-running guard; a new loop starts with last_ts 0.0 |
| Worker.ModuleWorker.Stop | src/v1/module_worker.py:26-29 | clears the running flag only |
| Worker.ModuleWorker.UpdateFrame | src/v1/module_worker.py:31-33 | overwrites both frame and timestamp, with no queueing |
| Worker.ModuleWorker.Step | src/v1/module_worker.py:35-57 | runs exactly when running with a frame whose timestamp is neither 0.0 nor last_ts; then last_ts := ts, the frame is handed over once, and the timing window records dt and keeps ≤ 30 entries; the invariant keeps consecutive processed timestamps distinct and non-zero |
| Grabber.MinDt | src/v1/frame_grabber.py:46 | the interval 1/max(fps, 0.1) lies in (0, 10] |
| Grabber.Pace | src/v1/frame_grabber.py:65-70 | the due time advances by one interval when that is still ahead of the clock (sleeping the difference), and resets to the clock with no sleep otherwise |
| Grabber.PaceBounded | src/v1/frame_grabber.py:65-70 | from a due time not in the future, the new one is within one interval of the clock: lag never accumulates |
| Grabber.FrameGrabber.constructor | src/v1/frame_grabber.py:17-29 | nothing published, timestamp 0.0, counter 0, not running |
| Grabber.FrameGrabber.GetLatest | src/v1/frame_grabber.py:72-77 | (None, 0.0) before any publish; after N publishes, the Nth frame together with the Nth stamp, so a frame is never paired with another publish's stamp; reads only |
| Grabber.FrameGrabber.Start | src/v1/frame_grabber.py:32-37 | a no-op when already running; otherwise sets the flag and starts pacing from the clock |
| Grabber.FrameGrabber.Stop | src/v1/frame_grabber.py:39-43 | clears the running flag and the thread |
| Grabber.FrameGrabber.Step | src/v1/frame_grabber.py:45-70 | a failed read changes nothing and sleeps 0.01 s; a frame is published with its stamp (the pair is appended to the publish history), the counter rises by exactly one, and the due time and sleep follow `Pace` |
| Pipeline.LargestIndex | src/v1/pathpal_pipeline_v1.py:129 | `max(key=area)`: an index of largest area with every earlier one strictly smaller (first one wins ties) |
| Pipeline.PersonEvent | src/v1/pathpal_pipeline_v1.py:128-132 | "no person" iff there are no persons; otherwise always a person cue, with the side of the first largest person |
| Pipeline.FaceEvents | src/v1/pathpal_pipeline_v1.py:134-136 | no event without faces (no "no face"); otherwise one event with the side of the first largest face |
| Pipeline.FirstMatch | src/v1/pathpal_pipeline_v1.py:148-155 | the first priority label with candidates; all earlier labels have none |
| Pipeline.Target | src/v1/pathpal_pipeline_v1.py:143-169 | none without detections; the first largest detection (as `max` picks on ties) of the first matching priority label; failing that, the first largest of all, exactly under "largest_any" |
| Pipeline.Direction | src/v1/pathpal_pipeline_v1.py:143-172 | the target's side; "center" under "center_only" with no match; otherwise the configured default, including when there are no detections |
| Pipeline.RangeEvents | src/v1/pathpal_pipeline_v1.py:174-178 | ≤ near: near-obstacle event with the direction; between near and far: "ahead" event; beyond far or no reading: nothing |
| Pipeline.Messages | src/v1/pathpal_pipeline_v1.py:128-178 | the events of one processed frame: exactly one person cue; a face cue exactly when there are faces; no range cue without a reading; a near-obstacle cue carries the chosen direction |
| Pipeline.CallsAt | src/v1/pathpal_pipeline_v1.py:128-178 | the iteration's messages, each emitted at the iteration's clock reading |
| Pipeline.SelectTarget | src/v1/pathpal_pipeline_v1.py:143-172 | the priority loop with its `break` and the fallback compute exactly `Target` and `Direction` |
| Pipeline.EmitNext | src/v1/pathpal_pipeline_v1.py:130 | one `emit` extends the policy run over the messages so far by that message |
| Pipeline.MainLoop.constructor | src/v1/pathpal_pipeline_v1.py:71 | the policy starts fresh with a 2.0 s cooldown; no timestamp seen |
| Pipeline.MainLoop.Step | src/v1/pathpal_pipeline_v1.py:93-178 | a missing frame or an already-seen timestamp changes nothing; otherwise last_ts := ts, `now_ts` is published, both workers receive the frame and nothing else of theirs changes, and the policy runs over the snapshot's messages; the module results in the state, `range_cm` included, are untouched |
| Pipeline.MainLoop.HandOver | src/v1/pathpal_pipeline_v1.py:114-115 | both workers hold the new frame and timestamp; their running flags, loop-local `last_ts`, timing windows and processed history are unchanged |
| Pipeline.MainLoop.Announce | src/v1/pathpal_pipeline_v1.py:121-178 | the emits of one iteration leave the policy exactly as a run of `Messages` over the snapshot, and return the delivered calls |
| Pipeline.PersonCueFirst | src/v1/pathpal_pipeline_v1.py:128-132 | every processed frame offers the person cue first, followed by at most two more events |

## Left out

- Threads, locks, `join` timeouts and sleeps. Each loop body is a step method; the sleep the grabber would take is returned, not performed.
- The camera, the TFLite interpreter, preprocessing and the tensor-layout heuristics in `CocoDetector.infer` (src/v1/coco_detector.py:54-101).
  The float scaling of normalised boxes to pixels is also left out: the loop receives each slot's class, score and pixel box.
- The face detector (`vendor_fdlite`) and its ROI scaling: its findings are passed in already scaled.
- Reading the labels file: the label list is a parameter.
- Drawing, display, MJPEG streaming, FPS figures and printing.
- The text of the events: events are datatype values, and the policy compares values where the source compares formatted strings.
  Two readings that print alike with `.3f` / `.1f` are therefore distinct events here.
- The configuration variables (thresholds, priority list, fallback, default direction) are parameters.
  A fallback string other than "largest_any", "center_only" and "none" behaves like "none" in the source and is modelled as `NoFallback`.
- `state['range_raw_cm']` missing and `None` are both `None`, which every reader of the dictionary treats alike.
- The `Module` cadence gate is not wired into the main loop, because the loop that would call it is commented out in the source.
  The COCO and face modules are driven by their workers instead. No worker or loop drives the ultrasonic module, so
  `Ultrasonic.UltrasonicModule.Process` is modelled as the code states it, but nothing in the modelled main loop calls it
  (see the introduction).
- `infer_count` and `last_infer_ms` are never updated, so they are not modelled. Only `infer_times` is.
- Pipeline.MainLoop.Announce: all emits of one iteration use one clock reading `now`, where the source reads the clock afresh in each `emit`.
- Grabber.FrameGrabber.Step: the pacing rule compares and resets with one clock reading `paceNow`, where the source reads the clock twice.
- Worker.ModuleWorker.Start: a second `start` on a running worker starts a second loop in the source; the model has one loop, which restarts with `last_ts` 0.0 and may therefore hand the current frame over again.
- Ultrasonic.UltrasonicModule.constructor: requires a history bound of at least 1 when enabled. With `RANGE_SMOOTH_N = 0` the history stays empty and the median lookup would raise.
- Seqs.SortByKeyDesc: sorting is stable by construction (insertion after equal keys), but stability is not stated as a contract.
- Nms.NmsDets: states that the output is a sub-multiset of the input, sorted by score, separated and covering every dropped detection; it does not state the order among equal scores.
- Nms.NmsDets: the overlap threshold is a parameter (the default `COCO_NMS_THRESH` is not in the shown configuration), and the debug print is dropped.
- Floating point: scores, thresholds, IoU, timestamps, periods and range readings are exact reals.
  Rounding at `iou < thresh`, `now - last_t < cooldown_s`, `now >= next_t` and the range thresholds is not modelled.
  NaN is not modelled either: a NaN sensor proportion passes every comparison in `_read_cm`
  (src/v1/ultrasonic_module.py:52-57) and is returned, which `Option<real>` cannot express.
- Worker.ModuleWorker.Step: always succeeds. In the source, `module.process` is called with no `try`
  (src/v1/module_worker.py:50-51), so an exception ends the worker thread for good while `_running` stays true.
  The model has no notion of a dead loop.
