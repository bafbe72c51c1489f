# Webcam foreign-object detection stream: a Dafny model

The program streams a webcam as MJPEG over HTTP. It runs an object detector on every second camera
frame. Each detection's class name is mapped to a display name: six classes (bottle, cup, knife,
backpack, handbag, scissors) become the alias "Foreign Object". It publishes the total number of
detections and a per-display-name count. It sounds a buzzer while a foreign object is in view. Every
emitted frame carries an "Objects: N" overlay and is framed as one part of a
`multipart/x-mixed-replace; boundary=frame` response.

This project models the core of that program:

- `ClassMapper`: the class-name alias (`map_class_name`) and the box colour chosen from the display name.
- `Counting`: the per-name tally (`dict.get(k, 0) + 1`) with its proved properties. Includes a ghost sum of a count map.
- `Aggregation`: the aggregate one detection pass publishes (total, per-name counts, foreign flag), and its consistency.
- `Sampling`: the frame-sampling rule (`frame_count % skip_frames == 0`, `skip_frames = 2`) and which frame numbers the detector sees.
- `Detection`: the per-pass loop over the detector's boxes as an imperative method. It is proved against `Aggregation.Pass`.
- `Framing`: the bytes of one multipart chunk, with a parser that inverts it.
- `Pipeline`:
  - `Next`: one iteration of the `generate_frames` loop as a pure step function.
  - `Run` and `Session`: the loop over a finite camera feed.
  - `FrameGenerator` class: holds the globals `frame_count`, `detection_count`, `detected_classes` and `foreign_object_detected`, the buzzer state, and `generate_frames`'s local `last_annotated_frame` (app.py:32), which `GenerateFrames` resets on entry. Its methods `Step` and `GenerateFrames` update this state in place and are proved equal to `Next` and `Session`.

Frames are abstract. A `Frame` records which camera read it was copied from. It also records the
marks drawn onto it, in order: one box per detection, then every "Objects: N" overlay. The camera is
a sequence of `Capture` values: `Failed`, or `Captured(labels)` holding the class names the detector
would report for that frame. The JPEG encoder is a function parameter.

The code draws the overlay in place onto `last_annotated_frame` (app.py:92-93), so a skipped frame
reuses the previous image with its earlier overlays and gets one more on top. In the model, each
emission appends one `CountText` mark to the stored frame. `NextEmits` states that the previous
marks are kept as a prefix.

## Model

| member | source | states |
|---|---|---|
| ClassMapper.MapClassName | app.py:21-27 | the result is "Foreign Object" exactly when the lower-cased name is one of the six foreign classes, or the name already is the alias; otherwise the name is returned unchanged |
| ClassMapper.MapClassNameIdempotent | app.py:23-27 | mapping a display name again changes nothing |
| ClassMapper.MapClassNameIgnoresCase | app.py:25 | two names equal up to letter case both become the alias when they name a foreign class, and are both kept as written otherwise |
| ClassMapper.MapClassNameExamples | app.py:21-27 | "Bottle" and "KNIFE" map to the alias, "person" is kept |
| ClassMapper.BoxColor | app.py:73-74 | a box is red exactly when its display name is the alias, green otherwise |
| Counting.TallyCounts | app.py:58-63 | after the `get(k, 0) + 1` loop, the count for each key is its number of occurrences |
| Counting.TallyKeys | app.py:58-63 | a key is in the dictionary exactly when it occurs in the input |
| Counting.TallySum | app.py:52-63 | the counts add up to the number of inputs |
| Counting.TallyPositive | app.py:63 | every stored count is at least one |
| Aggregation.CountLabelsKeys | app.py:58-63 | the keys of `detected_classes` are exactly the display names of the pass's detections |
| Aggregation.CountLabelsCounts | app.py:59-63 | each display name's count is the number of detections that map to it |
| Aggregation.HasForeignIffCounted | app.py:55-67 | the foreign flag is set exactly when "Foreign Object" is a key of the counts |
| Aggregation.PassConsistent | app.py:52-67 | a pass's aggregate is consistent: the counts sum to the total, the flag agrees with the counts, and no count is zero |
| Aggregation.PassEmpty | app.py:52-58 | a pass with no detections publishes total 0, no classes, no foreign object |
| Aggregation.PassExample | app.py:52-67 | two persons and a bottle give total 3, counts person 2 and Foreign Object 1, foreign flag set |
| Sampling.SampledUpToExact | app.py:18-19 | after n reads the detector has run on frames 2, 4, 6, …: n / 2 of them, the i-th being 2(i + 1) |
| Sampling.SampledUpToMembers | app.py:39-44 | frame m is among those the detector ran on exactly when 1 <= m <= n and m is even |
| Detection.DetectionPass | app.py:52-79 | the loop over boxes yields exactly the pass aggregate (total, counts, foreign flag) and one box mark per detection, in order, with the mapped name and colour |
| Framing.FramedLayout | app.py:99-100 | a chunk is the part header `--frame`, `Content-Type: image/jpeg` and a blank line, then the payload, then CRLF |
| Framing.UnframeFramed | app.py:99-100 | parsing a framed chunk gives back its JPEG payload |
| Framing.FramedUnframe | app.py:99-100 | any byte string the parser accepts is the framing of the payload it returns |
| Framing.FramedInjective | app.py:99-100 | different payloads give different chunks |
| Pipeline.LeadingReads | app.py:34-37 | the number of reads before the first failure: all earlier reads succeed, and the next one (if any) fails |
| Pipeline.NextFailed | app.py:35-37 | a failed read stops the loop with no state change and nothing emitted |
| Pipeline.NextSampled | app.py:39-85 | on a sampled frame: the counter advances; the total and the counts' sum equal the number of detections; the keys are exactly this pass's display names; the buzzer is on exactly when one of them is the alias |
| Pipeline.NextSampledEmpty | app.py:52-58 | a sampled frame with no detections clears the counts and turns the buzzer off |
| Pipeline.NextSkipped | app.py:87-88 | a skipped frame keeps the aggregate and the buzzer state; it reuses the stored frame, or copies the current frame when none is stored |
| Pipeline.NextEmits | app.py:49-100 | every successful read emits the stored frame with the current total drawn last; a sampled frame starts from the new camera frame with its boxes; a skipped one keeps the earlier marks |
| Pipeline.NextPreservesInv | app.py:52-85 | one iteration keeps the aggregate consistent and the buzzer equal to the foreign flag |
| Pipeline.RunEmitsLeadingReads | app.py:34-39 | a session emits one chunk per read before the first failure, and advances the frame counter by that many |
| Pipeline.RunFailureAt | app.py:34-37 | when read m + 1 is the first to fail, exactly m frames are emitted |
| Pipeline.RunPreservesInv | app.py:34-100 | the invariant holds at the end of every session |
| Pipeline.RunAggregate | app.py:44-63 | after a session the published aggregate is the pass over the latest sampled read, or the earlier aggregate if no read was sampled |
| Pipeline.FirstSession | app.py:15-19 | from program start, a session of n successful reads leaves the counter at n, emits n chunks and keeps the invariant |
| Pipeline.FrameGenerator.constructor | app.py:14-19 | the globals start at zero, with empty counts, no foreign object, buzzer off and no stored frame |
| Pipeline.FrameGenerator.Step | app.py:34-100 | one loop iteration updates the globals as `Next` does, yields the framed encoding of the emitted frame exactly when the read succeeds, and records a detector run exactly on sampled frames |
| Pipeline.FrameGenerator.GenerateFrames | app.py:30-100 | one call of the generator leaves the globals as `Session` does, yields the framed chunks of the session's frames in order, one per read before the first failure, and advances the counter by that many |

## Left out

- Camera I/O (`cv2.VideoCapture`): modelled as a finite sequence of reads. A feed that never fails is not modelled, because the model runs over finite input.
- Detector inference (`YOLO`, confidence threshold 0.5, image size 160): modelled as the list of class names a capture carries. Confidences and box coordinates are not modelled.
- Drawing details: positions, fonts, line widths, the confidence text on each box, and the exact RGB triples. Colours are modelled as `Red` and `Green`, and a box mark holds only its display name and colour.
- JPEG encoding at quality 70: modelled as an arbitrary function parameter from frames to bytes.
- `time.time()` at app.py:41: its value is never used.
- GPIO devices: the buzzer is modelled as a boolean field, and the motion sensor is not modelled.
- The Flask routes (`/`, `/video`, `/detection_stats`), the HTTP response, the JSON document and the threaded server: not modelled. Concurrent clients sharing the globals, and torn reads of them, are not modelled. The model covers a sequential run of one generator.
- test_cam.py and the browser script under static/ are not part of this model.
- ClassMapper.MapClassName: `str.lower` is modelled for ASCII letters only. Python's full Unicode lower-casing is not modelled.
- Pipeline.FrameGenerator.Step: `foreign_object_detected` is unbound in Python until the first sampled pass. The model starts it at false, and the buzzer off.
- Detection.DetectionPass: the source assigns the globals inside its loop. The model builds the pass in locals and then assigns them all at once, which is the same state for a single sequential generator.
