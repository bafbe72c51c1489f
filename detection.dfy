/**
 * One detection pass over a sampled frame: the detector's labels are mapped,
 * counted and flagged, and a box is drawn for each of them.
 */
module Detection {
  import opened ClassMapper
  import opened Counting
  import opened Aggregation

  /** What has been drawn onto an image, in drawing order. */
  datatype Mark = Box(name: string, color: Color) | CountText(count: nat)

  /** The box drawn for one detection, named and coloured by its display label. */
  function BoxOf(display: string): Mark
  {
    Box(display, BoxColor(display))
  }

  /** The boxes drawn for a pass's detections, in detection order. */
  function BoxesFor(labels: seq<string>): seq<Mark>
  {
    seq(|labels|, i requires 0 <= i < |labels| => BoxOf(MapClassName(labels[i])))
  }

  /** Drawing the next detection appends its box. */
  lemma BoxesForStep(labels: seq<string>, i: nat)
    requires i < |labels|
    ensures BoxesFor(labels[..i + 1]) == BoxesFor(labels[..i]) + [BoxOf(MapClassName(labels[i]))]
  {
  }

  /** The `for box in results[0].boxes` loop of one sampled frame, building this pass's state from scratch. */
  method DetectionPass(labels: seq<string>) returns (pass: Aggregate, boxes: seq<Mark>)
    ensures pass == Pass(labels)
    ensures boxes == BoxesFor(labels)
  {
    var count := |labels|;
    var foreign := false;
    var classes: map<string, nat> := map[];
    boxes := [];
    for i := 0 to |labels|
      invariant classes == CountLabels(labels[..i])
      invariant foreign == (ForeignObject in classes)
      invariant boxes == BoxesFor(labels[..i])
    {
      var display := MapClassName(labels[i]);
      CountLabelsStep(labels, i);
      BoxesForStep(labels, i);
      classes := classes[display := Get(classes, display) + 1];
      if display == ForeignObject {
        foreign := true;
      }
      boxes := boxes + [BoxOf(display)];
    }
    assert labels[..|labels|] == labels;
    HasForeignIffCounted(labels);
    pass := Aggregate(count, classes, foreign);
  }
}
