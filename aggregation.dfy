/** The aggregate detection state that one detection pass produces. */
module Aggregation {
  import opened ClassMapper
  import opened Counting

  /** `detection_count`, `detected_classes` and `foreign_object_detected` taken together. */
  datatype Aggregate = Aggregate(total: nat, classes: map<string, nat>, foreign: bool)

  /** The display label of every raw detector label, in detection order. */
  function DisplayNames(labels: seq<string>): (names: seq<string>)
    ensures |names| == |labels|
    ensures forall i :: 0 <= i < |labels| ==> names[i] == MapClassName(labels[i])
  {
    seq(|labels|, i requires 0 <= i < |labels| => MapClassName(labels[i]))
  }

  /** Per-display-label counts of one pass's detections. */
  function CountLabels(labels: seq<string>): map<string, nat>
  {
    Tally(DisplayNames(labels))
  }

  /** Counting the next detection of a pass updates only its display label's entry. */
  lemma CountLabelsStep(labels: seq<string>, i: nat)
    requires i < |labels|
    ensures var d := MapClassName(labels[i]);
      CountLabels(labels[..i + 1]) == CountLabels(labels[..i])[d := Get(CountLabels(labels[..i]), d) + 1]
  {
    assert DisplayNames(labels[..i + 1]) == DisplayNames(labels[..i]) + [MapClassName(labels[i])];
    TallySnoc(DisplayNames(labels[..i]), MapClassName(labels[i]));
  }

  /** Some detection of the pass maps to the foreign-object alias. */
  predicate HasForeign(labels: seq<string>)
  {
    exists i :: 0 <= i < |labels| && MapClassName(labels[i]) == ForeignObject
  }

  /** The aggregate state published after a pass over `labels`, built from nothing. */
  function Pass(labels: seq<string>): Aggregate
  {
    Aggregate(|labels|, CountLabels(labels), HasForeign(labels))
  }

  /** A self-consistent snapshot: counts sum to the total, the flag agrees with the map, no zero counts. */
  ghost predicate Consistent(a: Aggregate)
  {
    && Sum(a.classes) == a.total
    && (a.foreign <==> ForeignObject in a.classes)
    && forall k :: k in a.classes ==> a.classes[k] >= 1
  }

  /** The keys of a pass's map are exactly the display labels of its detections. */
  lemma CountLabelsKeys(labels: seq<string>)
    ensures forall k :: k in CountLabels(labels) <==> exists i :: 0 <= i < |labels| && MapClassName(labels[i]) == k
  {
    var names := DisplayNames(labels);
    TallyKeys(names);
    forall k ensures k in CountLabels(labels) <==> exists i :: 0 <= i < |labels| && MapClassName(labels[i]) == k {
      if k in names {
        var i :| 0 <= i < |names| && names[i] == k;
        assert MapClassName(labels[i]) == k;
      }
    }
  }

  /** Each display label is counted once per detection that maps to it. */
  lemma CountLabelsCounts(labels: seq<string>)
    ensures forall k :: Get(CountLabels(labels), k) == multiset(DisplayNames(labels))[k]
  {
    TallyCounts(DisplayNames(labels));
  }

  /** The flag is set exactly when the alias is among the counted labels. */
  lemma HasForeignIffCounted(labels: seq<string>)
    ensures HasForeign(labels) <==> ForeignObject in CountLabels(labels)
  {
    CountLabelsKeys(labels);
  }

  /** Every pass publishes a self-consistent snapshot whose counts sum to the number of detections. */
  lemma PassConsistent(labels: seq<string>)
    ensures Consistent(Pass(labels))
    ensures Sum(Pass(labels).classes) == |labels|
  {
    TallySum(DisplayNames(labels));
    TallyPositive(DisplayNames(labels));
    HasForeignIffCounted(labels);
  }

  /** A pass with no detections publishes zero, an empty map and no alert. */
  lemma PassEmpty()
    ensures Pass([]) == Aggregate(0, map[], false)
  {
  }

  /** Two detections of a non-foreign class and one of a foreign class. */
  lemma PassExample()
    ensures Pass(["person", "person", "bottle"]) == Aggregate(3, map["person" := 2, ForeignObject := 1], true)
  {
    var labels := ["person", "person", "bottle"];
    MapClassNameExamples();
    assert ToLower("person") == "person";
    assert ToLower("bottle") == "bottle";
    var names := DisplayNames(labels);
    assert names == ["person", "person", ForeignObject];
    assert names[..2] == ["person", "person"];
    assert names[..2][..1] == ["person"];
    assert Tally(["person"]) == map["person" := 1] by {
      assert ["person"][..0] == [];
    }
    assert Tally(["person", "person"]) == map["person" := 2] by {
      assert ["person", "person"][..1] == ["person"];
    }
    assert Tally(names) == map["person" := 2, ForeignObject := 1];
    assert MapClassName(labels[2]) == ForeignObject;
  }
}
