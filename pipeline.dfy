/**
 * The per-frame loop of `generate_frames`: read a frame, count it, run the
 * detector on every `skip_frames`-th frame and republish the aggregate state,
 * drive the buzzer from the foreign-object flag, overlay the count and emit
 * one multipart chunk. The camera, the detector and the JPEG encoder are inputs.
 */
module Pipeline {
  import opened Wrappers
  import opened Framing
  import opened ClassMapper
  import opened Counting
  import opened Aggregation
  import opened Sampling
  import opened Detection

  /** An image: the number of the camera frame it was copied from, and what was drawn on it since. */
  datatype Frame = Frame(source: nat, marks: seq<Mark>)

  /** One `camera.read()`: a failure, or a frame on which the detector would report these raw labels. */
  datatype Capture = Failed | Captured(detections: seq<string>)

  /** The state the loop keeps: the globals, the buzzer, and the last annotated frame. */
  datatype PipelineState = PipelineState(frameCount: nat, agg: Aggregate, buzzerOn: bool, lastFrame: Option<Frame>)

  /** The state when the program starts: nothing counted, nothing detected, buzzer off. */
  const Initial: PipelineState := PipelineState(0, Aggregate(0, map[], false), false, None)

  /** The `Objects: N` text drawn in place onto the image about to be emitted. */
  function Overlay(f: Frame, total: nat): Frame
  {
    f.(marks := f.marks + [CountText(total)])
  }

  /** One iteration of the loop: the new state and the image it emits, if any. */
  function Next(s: PipelineState, c: Capture): (PipelineState, Option<Frame>)
  {
    match c
    case Failed => (s, None)
    case Captured(labels) =>
      var n := s.frameCount + 1;
      if IsSampled(n) then
        var pass := Pass(labels);
        var f := Overlay(Frame(n, BoxesFor(labels)), pass.total);
        (PipelineState(n, pass, pass.foreign, Some(f)), Some(f))
      else
        var base := if s.lastFrame.Some? then s.lastFrame.value else Frame(n, []);
        var f := Overlay(base, s.agg.total);
        (s.(frameCount := n, lastFrame := Some(f)), Some(f))
  }

  /** The loop run over a finite camera feed: it stops at the first failed read or when the feed ends. */
  function Run(s: PipelineState, cams: seq<Capture>): (PipelineState, seq<Frame>)
    decreases |cams|
  {
    if cams == [] || cams[0].Failed? then (s, [])
    else
      var step := Next(s, cams[0]);
      var rest := Run(step.0, cams[1..]);
      (rest.0, [step.1.value] + rest.1)
  }

  /** One call of `generate_frames`: the last annotated frame starts out absent. */
  function Session(s: PipelineState, cams: seq<Capture>): (PipelineState, seq<Frame>)
  {
    Run(s.(lastFrame := None), cams)
  }

  /** The number of reads before the first failure. */
  function LeadingReads(cams: seq<Capture>): (k: nat)
    ensures k <= |cams|
    ensures forall i :: 0 <= i < k ==> cams[i].Captured?
    ensures k < |cams| ==> cams[k].Failed?
  {
    if cams == [] || cams[0].Failed? then 0 else 1 + LeadingReads(cams[1..])
  }

  /** The detector reports for the frames read before the first failure. */
  function Successful(cams: seq<Capture>): (passes: seq<seq<string>>)
    ensures |passes| == LeadingReads(cams)
  {
    seq(LeadingReads(cams), i requires 0 <= i < LeadingReads(cams) => cams[i].detections)
  }

  /**
   * The aggregate state after the successful reads `shots` that follow frame number `start`:
   * the pass over the latest sampled read, or `prior` when none of them was sampled.
   */
  function LatestPass(start: nat, shots: seq<seq<string>>, prior: Aggregate): Aggregate
    decreases |shots|
  {
    if shots == [] then prior
    else if IsSampled(start + |shots|) then Pass(shots[|shots| - 1])
    else LatestPass(start, shots[..|shots| - 1], prior)
  }

  /** The invariant every state of the loop keeps. */
  ghost predicate Inv(s: PipelineState)
  {
    Consistent(s.agg) && s.buzzerOn == s.agg.foreign
  }

  /** The multipart chunks of a run's images, in emission order. */
  function Chunks(frames: seq<Frame>, encode: Frame -> seq<byte>): (chunks: seq<seq<byte>>)
    ensures |chunks| == |frames|
  {
    seq(|frames|, i requires 0 <= i < |frames| => Framed(encode(frames[i])))
  }

  /** The chunk a single iteration yields. */
  function ChunkOf(f: Option<Frame>, encode: Frame -> seq<byte>): Option<seq<byte>>
  {
    if f.Some? then Some(Framed(encode(f.value))) else None
  }

  // ----- one iteration -----

  /** A failed read changes nothing and emits nothing. */
  lemma NextFailed(s: PipelineState)
    ensures Next(s, Failed) == (s, None)
  {
  }

  /**
   * On a sampled frame the aggregate is rebuilt from this pass alone: the total is the number
   * of detections, the counts sum to it, the keys are exactly this pass's display labels, and
   * the buzzer is on exactly when one of them is the foreign-object alias.
   */
  lemma NextSampled(s: PipelineState, labels: seq<string>)
    requires IsSampled(s.frameCount + 1)
    ensures var t := Next(s, Captured(labels)).0;
      && t.frameCount == s.frameCount + 1
      && t.agg.total == |labels|
      && Sum(t.agg.classes) == |labels|
      && (forall k :: k in t.agg.classes <==> exists i :: 0 <= i < |labels| && MapClassName(labels[i]) == k)
      && (t.buzzerOn <==> exists i :: 0 <= i < |labels| && MapClassName(labels[i]) == ForeignObject)
  {
    PassConsistent(labels);
    CountLabelsKeys(labels);
  }

  /** A sampled frame with no detections clears the counts and turns the buzzer off, whatever came before. */
  lemma NextSampledEmpty(s: PipelineState)
    requires IsSampled(s.frameCount + 1)
    ensures Next(s, Captured([])).0.agg == Aggregate(0, map[], false)
    ensures !Next(s, Captured([])).0.buzzerOn
  {
    PassEmpty();
  }

  /** A frame that is not sampled leaves the aggregate state and the buzzer as they were. */
  lemma NextSkipped(s: PipelineState, labels: seq<string>)
    requires !IsSampled(s.frameCount + 1)
    ensures var t := Next(s, Captured(labels)).0;
      && t.frameCount == s.frameCount + 1
      && t.agg == s.agg
      && t.buzzerOn == s.buzzerOn
      && t.lastFrame.Some?
      && (s.lastFrame.Some? ==> t.lastFrame.value.source == s.lastFrame.value.source)
      && (s.lastFrame.None? ==> t.lastFrame.value.source == s.frameCount + 1)
  {
  }

  /**
   * Every successful read emits the last annotated frame with the current total drawn last onto it;
   * a sampled frame starts from a copy of the new camera frame, a skipped one reuses the
   * previous image with the overlays already drawn on it.
   */
  lemma NextEmits(s: PipelineState, labels: seq<string>)
    ensures var (t, f) := Next(s, Captured(labels));
      && f.Some? && t.lastFrame == f
      && |f.value.marks| > 0
      && f.value.marks[|f.value.marks| - 1] == CountText(t.agg.total)
      && (IsSampled(s.frameCount + 1) ==>
            f.value.source == s.frameCount + 1 && f.value.marks[..|labels|] == BoxesFor(labels))
      && (!IsSampled(s.frameCount + 1) && s.lastFrame.Some? ==>
            f.value.marks[..|f.value.marks| - 1] == s.lastFrame.value.marks)
  {
  }

  /** The loop's invariant holds after every iteration. */
  lemma NextPreservesInv(s: PipelineState, c: Capture)
    requires Inv(s)
    ensures Inv(Next(s, c).0)
  {
    if c.Captured? && IsSampled(s.frameCount + 1) {
      PassConsistent(c.detections);
    }
  }

  // ----- a whole session -----

  /** The loop emits one image per read before the first failure, and counts exactly those reads. */
  lemma {:induction false} RunEmitsLeadingReads(s: PipelineState, cams: seq<Capture>)
    ensures |Run(s, cams).1| == LeadingReads(cams)
    ensures Run(s, cams).0.frameCount == s.frameCount + LeadingReads(cams)
    decreases |cams|
  {
    if cams != [] && cams[0].Captured? {
      RunEmitsLeadingReads(Next(s, cams[0]).0, cams[1..]);
    }
  }

  /** When read number m + 1 is the first to fail, exactly m images are emitted. */
  lemma RunFailureAt(s: PipelineState, cams: seq<Capture>, m: nat)
    requires m < |cams| && cams[m].Failed?
    requires forall i :: 0 <= i < m ==> cams[i].Captured?
    ensures |Run(s, cams).1| == m
    ensures Run(s, cams).0.frameCount == s.frameCount + m
  {
    RunEmitsLeadingReads(s, cams);
  }

  /** The invariant holds at the end of every run. */
  lemma {:induction false} RunPreservesInv(s: PipelineState, cams: seq<Capture>)
    requires Inv(s)
    ensures Inv(Run(s, cams).0)
    decreases |cams|
  {
    if cams != [] && cams[0].Captured? {
      NextPreservesInv(s, cams[0]);
      RunPreservesInv(Next(s, cams[0]).0, cams[1..]);
    }
  }

  /** Splitting off the first read: its pass, if sampled, becomes the fallback for the rest. */
  lemma {:induction false} LatestPassCons(start: nat, r: seq<string>, rest: seq<seq<string>>, prior: Aggregate)
    ensures LatestPass(start, [r] + rest, prior)
         == LatestPass(start + 1, rest, if IsSampled(start + 1) then Pass(r) else prior)
    decreases |rest|
  {
    var shots := [r] + rest;
    if rest == [] {
      assert shots[..0] == [];
    } else if IsSampled(start + |shots|) {
      assert shots[|shots| - 1] == rest[|rest| - 1];
    } else {
      assert shots[..|shots| - 1] == [r] + rest[..|rest| - 1];
      LatestPassCons(start, r, rest[..|rest| - 1], prior);
    }
  }

  /** After a run the published aggregate is the pass over the latest sampled frame, or the earlier one if none was sampled. */
  lemma {:induction false} RunAggregate(s: PipelineState, cams: seq<Capture>)
    ensures Run(s, cams).0.agg == LatestPass(s.frameCount, Successful(cams), s.agg)
    decreases |cams|
  {
    if cams != [] && cams[0].Captured? {
      var t := Next(s, cams[0]).0;
      RunAggregate(t, cams[1..]);
      assert Successful(cams) == [cams[0].detections] + Successful(cams[1..]);
      LatestPassCons(s.frameCount, cams[0].detections, Successful(cams[1..]), s.agg);
    }
  }

  /** From program start, a session of n successful reads leaves the counter at n and the invariant intact. */
  lemma FirstSession(cams: seq<Capture>)
    ensures Session(Initial, cams).0.frameCount == LeadingReads(cams)
    ensures |Session(Initial, cams).1| == LeadingReads(cams)
    ensures Inv(Session(Initial, cams).0)
  {
    RunEmitsLeadingReads(Initial.(lastFrame := None), cams);
    PassConsistent([]);
    RunPreservesInv(Initial.(lastFrame := None), cams);
  }

  // ----- the state the program keeps -----

  class FrameGenerator {
    var frameCount: nat
    var detectionCount: nat
    var detectedClasses: map<string, nat>
    var foreignDetected: bool
    var buzzerOn: bool
    var lastFrame: Option<Frame>
    /** The frame numbers the detector has run on, oldest first. */
    ghost var detectorRuns: seq<nat>

    function Model(): PipelineState
      reads this
    {
      PipelineState(frameCount, Aggregate(detectionCount, detectedClasses, foreignDetected), buzzerOn, lastFrame)
    }

    ghost predicate Valid()
      reads this
    {
      Inv(Model()) && detectorRuns == SampledUpTo(frameCount)
    }

    constructor ()
      ensures Valid()
      ensures Model() == Initial && detectorRuns == []
    {
      frameCount := 0;
      detectionCount := 0;
      detectedClasses := map[];
      foreignDetected := false;
      buzzerOn := false;
      lastFrame := None;
      detectorRuns := [];
      PassConsistent([]);
    }

    /** One iteration of the `while True` loop. */
    method Step(capture: Capture, encode: Frame -> seq<byte>) returns (chunk: Option<seq<byte>>)
      requires Valid()
      modifies this
      ensures Valid()
      ensures Model() == Next(old(Model()), capture).0
      ensures chunk == ChunkOf(Next(old(Model()), capture).1, encode)
      ensures chunk.Some? <==> capture.Captured?
      ensures detectorRuns == old(detectorRuns)
        + (if capture.Captured? && IsSampled(old(frameCount) + 1) then [old(frameCount) + 1] else [])
    {
      ghost var next := Next(Model(), capture);
      NextPreservesInv(Model(), capture);
      if capture.Failed? {
        return None;
      }
      var n := frameCount + 1;
      var count, classes, foreign, frame := detectionCount, detectedClasses, foreignDetected, lastFrame;
      if n % SkipFrames == 0 {
        var pass, boxes := DetectionPass(capture.detections);
        frame := Some(Frame(n, boxes));
        count, foreign, classes := pass.total, pass.foreign, pass.classes;
        buzzerOn := foreign;
        detectorRuns := detectorRuns + [n];
      } else if frame.None? {
        frame := Some(Frame(n, []));
      }
      frame := Some(Overlay(frame.value, count));
      frameCount, detectionCount, detectedClasses, foreignDetected, lastFrame := n, count, classes, foreign, frame;
      chunk := Some(Framed(encode(frame.value)));
      assert Model() == next.0;
    }

    /** One call of `generate_frames` over a finite camera feed: the chunks it yields, in order. */
    method GenerateFrames(camera: seq<Capture>, encode: Frame -> seq<byte>) returns (chunks: seq<seq<byte>>)
      requires Valid()
      modifies this
      ensures Valid()
      ensures Model() == Session(old(Model()), camera).0
      ensures chunks == Chunks(Session(old(Model()), camera).1, encode)
      ensures |chunks| == LeadingReads(camera) && frameCount == old(frameCount) + LeadingReads(camera)
    {
      lastFrame := None;
      ghost var start := Model();
      ghost var emitted: seq<Frame> := [];
      chunks := [];
      var i := 0;
      assert camera[0..] == camera;
      assert emitted + Run(start, camera).1 == Run(start, camera).1;
      while i < |camera|
        invariant 0 <= i <= |camera|
        invariant Valid()
        invariant Run(start, camera).0 == Run(Model(), camera[i..]).0
        invariant Run(start, camera).1 == emitted + Run(Model(), camera[i..]).1
        invariant chunks == Chunks(emitted, encode)
      {
        ghost var here := Model();
        var chunk := Step(camera[i], encode);
        if chunk.None? {
          break;
        }
        assert camera[i..][1..] == camera[i + 1..];
        emitted := emitted + [Next(here, camera[i]).1.value];
        chunks := chunks + [chunk.value];
        i := i + 1;
      }
      RunEmitsLeadingReads(start, camera);
    }
  }
}
