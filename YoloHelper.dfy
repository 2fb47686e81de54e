/** Decoding the output of a YOLO detection model
    (src/OnnxExtensions/Helpers/YoloHelper/YoloHelper.cs). Single-precision
    floats are modelled as reals, and the image only contributes its width and
    height. */
module YoloHelper {
  import opened Wrappers
  import opened Models

  /** One row of the `[1, N, 6]` output tensor: two corners, a score and a class id. */
  datatype Slot = Slot(x1: real, y1: real, x2: real, y2: real, score: real, classId: real)

  /** A `[1, N, 6]` float tensor, given as its N slots in order. */
  datatype OutputTensor = OutputTensor(slots: seq<Slot>)

  /** One named output of an inference run. */
  datatype NamedOnnxValue = NamedOnnxValue(name: string, value: OutputTensor)

  /** The ways decoding fails: `Outputs[0]` of a model without output names,
      no run output with that name, or a class id that passes the filter but
      indexes the label list below zero. */
  datatype DecodeError =
    | NoOutputNames
    | OutputNotFound(name: string)
    | LabelIndexOutOfRange(slot: nat, classId: int)

  /** The C# cast `(int)v` of a float: truncation toward zero. */
  function Trunc(v: real): (r: int)
    ensures v >= 0.0 ==> r as real <= v < r as real + 1.0
    ensures v < 0.0 ==> r as real - 1.0 < v <= r as real
  {
    if v >= 0.0 then v.Floor else -((-v).Floor)
  }

  /** `Math.Clamp(v, lo, hi)`. */
  function Clamp(v: real, lo: real, hi: real): (r: real)
    requires lo <= hi
    ensures lo <= r <= hi
    ensures lo <= v <= hi ==> r == v
    ensures v < lo ==> r == lo
    ensures hi < v ==> r == hi
  {
    if v < lo then lo else if hi < v then hi else v
  }

  /** The class id of a slot, truncated to an integer. */
  function ClassIndex(s: Slot): (r: int)
    ensures r < 0 <==> s.classId <= -1.0
    ensures r == 0 <==> -1.0 < s.classId < 1.0
    ensures r > 0 ==> r as real <= s.classId < r as real + 1.0
  {
    Trunc(s.classId)
  }

  /** A slot survives the filter unless its score is below the threshold or its
      class id is at least the number of labels. */
  predicate PassesFilter(s: Slot, confThreshold: real, labelCount: nat)
    ensures labelCount > 0 ==>
      (PassesFilter(s, confThreshold, labelCount) <==> s.score >= confThreshold && s.classId < labelCount as real)
    ensures labelCount == 0 ==>
      (PassesFilter(s, confThreshold, labelCount) <==> s.score >= confThreshold && s.classId <= -1.0)
  {
    !(s.score < confThreshold || ClassIndex(s) >= labelCount)
  }

  /** A slot yields a prediction: it passes the filter and its class id is a
      valid index into the label list. */
  predicate Emits(s: Slot, confThreshold: real, labelCount: nat)
  {
    PassesFilter(s, confThreshold, labelCount) && ClassIndex(s) >= 0
  }

  /** A slot passes the filter yet its class id is negative: looking up its
      label fails. */
  predicate Faulty(s: Slot, confThreshold: real, labelCount: nat)
  {
    PassesFilter(s, confThreshold, labelCount) && ClassIndex(s) < 0
  }

  /** The rectangle of a slot: every corner coordinate clamped to the image on
      its own, then the box spanned by the clamped corners truncated to
      integers. The origin and the far corner lie inside the image; the width
      (height) is positive only when the clamped corners are at least one unit
      apart in the right order, and is negative when they are at least one unit
      apart in the wrong order. */
  function SlotBox(s: Slot, imageWidth: nat, imageHeight: nat): (b: Box)
    ensures 0 <= b.x <= imageWidth && 0 <= b.y <= imageHeight
    ensures 0 <= b.x + b.width <= imageWidth && 0 <= b.y + b.height <= imageHeight
    ensures var x1, x2 := Clamp(s.x1, 0.0, imageWidth as real), Clamp(s.x2, 0.0, imageWidth as real);
      && (b.width > 0 <==> x2 >= x1 + 1.0) && (b.width < 0 <==> x2 <= x1 - 1.0)
    ensures var y1, y2 := Clamp(s.y1, 0.0, imageHeight as real), Clamp(s.y2, 0.0, imageHeight as real);
      && (b.height > 0 <==> y2 >= y1 + 1.0) && (b.height < 0 <==> y2 <= y1 - 1.0)
  {
    var x1 := Clamp(s.x1, 0.0, imageWidth as real);
    var y1 := Clamp(s.y1, 0.0, imageHeight as real);
    var x2 := Clamp(s.x2, 0.0, imageWidth as real);
    var y2 := Clamp(s.y2, 0.0, imageHeight as real);
    Box(Trunc(x1), Trunc(y1), Trunc(x2 - x1), Trunc(y2 - y1))
  }

  /** The prediction an emitting slot yields. */
  function Predict(s: Slot, imageWidth: nat, imageHeight: nat, labels: seq<ModelLabel>): ModelPrediction
    requires 0 <= ClassIndex(s) < |labels|
  {
    ModelPrediction(labels[ClassIndex(s)], SlotBox(s, imageWidth, imageHeight), s.score)
  }

  /** What decoding the slots yields, slot by slot in ascending order: the
      predictions of the emitting slots, or the error raised at the first slot
      that passes the filter with a negative class id. */
  function Detections(slots: seq<Slot>, imageWidth: nat, imageHeight: nat, confThreshold: real,
                      labels: seq<ModelLabel>): (r: Result<seq<ModelPrediction>, DecodeError>)
    ensures r.Success? ==> |r.value| <= |slots|
    decreases |slots|
  {
    if slots == [] then Success([])
    else
      var n := |slots| - 1;
      match Detections(slots[..n], imageWidth, imageHeight, confThreshold, labels)
      case Failure(e) => Failure(e)
      case Success(ps) =>
        var s := slots[n];
        if !PassesFilter(s, confThreshold, |labels|) then Success(ps)
        else if ClassIndex(s) < 0 then Failure(LabelIndexOutOfRange(n, ClassIndex(s)))
        else Success(ps + [Predict(s, imageWidth, imageHeight, labels)])
  }

  /** Once a prefix of the slots fails, every longer prefix fails with the same error. */
  lemma {:induction false} FailurePersists(slots: seq<Slot>, k: nat, imageWidth: nat, imageHeight: nat,
                                           confThreshold: real, labels: seq<ModelLabel>)
    requires k <= |slots|
    requires Detections(slots[..k], imageWidth, imageHeight, confThreshold, labels).Failure?
    ensures Detections(slots, imageWidth, imageHeight, confThreshold, labels)
            == Detections(slots[..k], imageWidth, imageHeight, confThreshold, labels)
    decreases |slots| - k
  {
    if k < |slots| {
      var n := |slots| - 1;
      assert slots[..n][..k] == slots[..k];
      FailurePersists(slots[..n], k, imageWidth, imageHeight, confThreshold, labels);
    } else {
      assert slots[..k] == slots;
    }
  }

  /** `ParseDetect`: visits the slots in ascending order, skips the filtered
      ones, clamps the corners of the others and appends their predictions. */
  method ParseDetect(output: OutputTensor, imageWidth: nat, imageHeight: nat, confThreshold: real,
                     model: OnnxModel)
    returns (r: Result<seq<ModelPrediction>, DecodeError>)
    ensures r == Detections(output.slots, imageWidth, imageHeight, confThreshold, model.labels)
  {
    var result: seq<ModelPrediction> := [];
    var numDetections := |output.slots|;
    var width, height := imageWidth as real, imageHeight as real;
    for i := 0 to numDetections
      invariant Detections(output.slots[..i], imageWidth, imageHeight, confThreshold, model.labels)
                == Success(result)
    {
      assert output.slots[..i + 1][..i] == output.slots[..i];
      var s := output.slots[i];
      var x1, y1, x2, y2, score := s.x1, s.y1, s.x2, s.y2, s.score;
      var classId := Trunc(s.classId);
      if score < confThreshold || classId >= |model.labels| {
        continue;
      }
      x1 := Clamp(x1, 0.0, width);
      y1 := Clamp(y1, 0.0, height);
      x2 := Clamp(x2, 0.0, width);
      y2 := Clamp(y2, 0.0, height);
      var boxWidth := x2 - x1;
      var boxHeight := y2 - y1;
      if classId < 0 {
        FailurePersists(output.slots, i + 1, imageWidth, imageHeight, confThreshold, model.labels);
        assert output.slots[..numDetections] == output.slots;
        return Failure(LabelIndexOutOfRange(i, classId));
      }
      var modelLabel := model.labels[classId];
      var rect := Box(Trunc(x1), Trunc(y1), Trunc(boxWidth), Trunc(boxHeight));
      result := result + [ModelPrediction(modelLabel, rect, score)];
    }
    assert output.slots[..numDetections] == output.slots;
    return Success(result);
  }

  /** `outputs.First(x => x.Name == name)`: the position of the first output
      with that name, if any. */
  function FirstNamed(outputs: seq<NamedOnnxValue>, name: string): (r: Option<nat>)
    ensures r.Some? ==> r.value < |outputs| && outputs[r.value].name == name
                        && forall j :: 0 <= j < r.value ==> outputs[j].name != name
    ensures r.None? ==> forall j :: 0 <= j < |outputs| ==> outputs[j].name != name
  {
    if outputs == [] then None
    else if outputs[0].name == name then Some(0)
    else match FirstNamed(outputs[1..], name)
      case None => None
      case Some(k) => Some(k + 1)
  }

  /** `ParseOutput`: decodes the first run output named by the model's first
      output name. The model's task kind plays no part. */
  method ParseOutput(outputs: seq<NamedOnnxValue>, imageWidth: nat, imageHeight: nat, conf: real,
                     model: OnnxModel)
    returns (r: Result<seq<ModelPrediction>, DecodeError>)
    ensures |model.outputs| == 0 ==> r == Failure(NoOutputNames)
    ensures |model.outputs| > 0 && FirstNamed(outputs, model.outputs[0]).None? ==>
              r == Failure(OutputNotFound(model.outputs[0]))
    ensures |model.outputs| > 0 && FirstNamed(outputs, model.outputs[0]).Some? ==>
              r == Detections(outputs[FirstNamed(outputs, model.outputs[0]).value].value.slots,
                              imageWidth, imageHeight, conf, model.labels)
  {
    if |model.outputs| == 0 {
      return Failure(NoOutputNames);
    }
    var firstOutput := model.outputs[0];
    var found := FirstNamed(outputs, firstOutput);
    if found.None? {
      return Failure(OutputNotFound(firstOutput));
    }
    var output := outputs[found.value].value;
    r := ParseDetect(output, imageWidth, imageHeight, conf, model);
  }

  /** The positions of the emitting slots, in ascending order. */
  function EmittedSlots(slots: seq<Slot>, confThreshold: real, labelCount: nat): (e: seq<nat>)
    ensures |e| <= |slots|
    ensures forall k :: 0 <= k < |e| ==> e[k] < |slots| && Emits(slots[e[k]], confThreshold, labelCount)
    ensures forall k, l :: 0 <= k < l < |e| ==> e[k] < e[l]
    ensures forall i :: 0 <= i < |slots| && Emits(slots[i], confThreshold, labelCount) ==> i in e
    decreases |slots|
  {
    if slots == [] then []
    else
      var n := |slots| - 1;
      assert forall i :: 0 <= i < n ==> slots[..n][i] == slots[i];
      EmittedSlots(slots[..n], confThreshold, labelCount)
        + (if Emits(slots[n], confThreshold, labelCount) then [n] else [])
  }

  /** Decoding succeeds exactly when no slot is faulty; when it fails, it
      reports the first faulty slot and its class id. */
  lemma {:induction false} DetectionsOutcome(slots: seq<Slot>, imageWidth: nat, imageHeight: nat,
                                             confThreshold: real, labels: seq<ModelLabel>)
    ensures var r := Detections(slots, imageWidth, imageHeight, confThreshold, labels);
      r.Success? <==> forall i :: 0 <= i < |slots| ==> !Faulty(slots[i], confThreshold, |labels|)
    ensures var r := Detections(slots, imageWidth, imageHeight, confThreshold, labels);
      r.Failure? ==> && r.error.LabelIndexOutOfRange?
                     && r.error.slot < |slots|
                     && Faulty(slots[r.error.slot], confThreshold, |labels|)
                     && r.error.classId == ClassIndex(slots[r.error.slot])
                     && forall j :: 0 <= j < r.error.slot ==> !Faulty(slots[j], confThreshold, |labels|)
    decreases |slots|
  {
    if slots != [] {
      var n := |slots| - 1;
      assert forall i :: 0 <= i < n ==> slots[..n][i] == slots[i];
      DetectionsOutcome(slots[..n], imageWidth, imageHeight, confThreshold, labels);
    }
  }

  /** On success, prediction `k` is the one the `k`-th emitting slot yields. */
  lemma {:induction false} PredictionsOfEmittedSlots(slots: seq<Slot>, imageWidth: nat, imageHeight: nat,
                                                     confThreshold: real, labels: seq<ModelLabel>)
    requires Detections(slots, imageWidth, imageHeight, confThreshold, labels).Success?
    ensures var ps := Detections(slots, imageWidth, imageHeight, confThreshold, labels).value;
      var e := EmittedSlots(slots, confThreshold, |labels|);
      && |ps| == |e|
      && forall k :: 0 <= k < |ps| ==> ps[k] == Predict(slots[e[k]], imageWidth, imageHeight, labels)
    decreases |slots|
  {
    if slots != [] {
      var n := |slots| - 1;
      assert forall i :: 0 <= i < n ==> slots[..n][i] == slots[i];
      PredictionsOfEmittedSlots(slots[..n], imageWidth, imageHeight, confThreshold, labels);
    }
  }

  /** On success, the predictions are those of the emitting slots, one per
      emitting slot and in slot order: each keeps its slot's raw score, takes
      the label at the slot's class id and the slot's clamped box. */
  lemma DetectionsAreEmittedSlots(slots: seq<Slot>, imageWidth: nat, imageHeight: nat,
                                  confThreshold: real, labels: seq<ModelLabel>)
    requires Detections(slots, imageWidth, imageHeight, confThreshold, labels).Success?
    ensures var ps := Detections(slots, imageWidth, imageHeight, confThreshold, labels).value;
      var e := EmittedSlots(slots, confThreshold, |labels|);
      && |ps| == |e|
      && forall k :: 0 <= k < |ps| ==>
           && ps[k].score == slots[e[k]].score
           && ps[k].modelLabel == labels[ClassIndex(slots[e[k]])]
           && ps[k].rectangle == SlotBox(slots[e[k]], imageWidth, imageHeight)
  {
    PredictionsOfEmittedSlots(slots, imageWidth, imageHeight, confThreshold, labels);
  }

  /** Every prediction has at least the threshold score, carries a label of the
      model, and has its origin and far corner inside the image; there are at
      most as many predictions as slots. */
  lemma DetectionsSound(slots: seq<Slot>, imageWidth: nat, imageHeight: nat, confThreshold: real,
                        labels: seq<ModelLabel>)
    requires Detections(slots, imageWidth, imageHeight, confThreshold, labels).Success?
    ensures var ps := Detections(slots, imageWidth, imageHeight, confThreshold, labels).value;
      && |ps| <= |slots|
      && forall p :: p in ps ==>
           && p.score >= confThreshold
           && p.modelLabel in labels
           && 0 <= p.rectangle.x <= imageWidth && 0 <= p.rectangle.y <= imageHeight
           && 0 <= p.rectangle.x + p.rectangle.width <= imageWidth
           && 0 <= p.rectangle.y + p.rectangle.height <= imageHeight
  {
    DetectionsAreEmittedSlots(slots, imageWidth, imageHeight, confThreshold, labels);
  }

  /** With a label list whose entry `i` has id `i`, as the model builder
      produces, the label of each prediction has the class id of its slot. */
  lemma LabelIdsAreClassIds(slots: seq<Slot>, imageWidth: nat, imageHeight: nat, confThreshold: real,
                            labels: seq<ModelLabel>)
    requires IndexedLabels(labels)
    requires Detections(slots, imageWidth, imageHeight, confThreshold, labels).Success?
    ensures var ps := Detections(slots, imageWidth, imageHeight, confThreshold, labels).value;
      var e := EmittedSlots(slots, confThreshold, |labels|);
      |ps| == |e| && forall k :: 0 <= k < |ps| ==> 0 <= ps[k].modelLabel.id == ClassIndex(slots[e[k]]) < |labels|
  {
    DetectionsAreEmittedSlots(slots, imageWidth, imageHeight, confThreshold, labels);
  }

  /** When no slot reaches the threshold, in particular when there are no
      slots, the result is the empty list. */
  lemma {:induction false} NothingAboveThreshold(slots: seq<Slot>, imageWidth: nat, imageHeight: nat,
                                                 confThreshold: real, labels: seq<ModelLabel>)
    requires forall i :: 0 <= i < |slots| ==> slots[i].score < confThreshold
    ensures Detections(slots, imageWidth, imageHeight, confThreshold, labels) == Success([])
    decreases |slots|
  {
    if slots != [] {
      var n := |slots| - 1;
      assert forall i :: 0 <= i < n ==> slots[..n][i] == slots[i];
      NothingAboveThreshold(slots[..n], imageWidth, imageHeight, confThreshold, labels);
    }
  }

  /** A threshold above every score, such as 1.01 for scores in [0, 1], yields
      no predictions. */
  lemma ThresholdAboveAllScores(slots: seq<Slot>, imageWidth: nat, imageHeight: nat,
                                confThreshold: real, labels: seq<ModelLabel>)
    requires forall i :: 0 <= i < |slots| ==> 0.0 <= slots[i].score <= 1.0
    requires confThreshold > 1.0
    ensures Detections(slots, imageWidth, imageHeight, confThreshold, labels) == Success([])
  {
    NothingAboveThreshold(slots, imageWidth, imageHeight, confThreshold, labels);
  }

  /** Worked cases of the per-slot rules: independent clamping of both x
      corners; a negative width for corners in the wrong order; a class id of
      -0.5 truncated to 0 and kept; a class id equal to the label count
      dropped even at score 1; a class id of -1 that fails the lookup. */
  lemma SlotExamples(labels: seq<ModelLabel>)
    requires |labels| == 1
    ensures SlotBox(Slot(-10.0, 5.0, 50.0, 60.0, 0.9, 0.0), 40, 100) == Box(0, 5, 40, 55)
    ensures SlotBox(Slot(30.0, 0.0, 10.0, 8.0, 0.9, 0.0), 40, 100) == Box(30, 0, -20, 8)
    ensures Detections([Slot(1.0, 1.0, 2.0, 2.0, 0.5, -0.5)], 40, 100, 0.5, labels)
            == Success([ModelPrediction(labels[0], Box(1, 1, 1, 1), 0.5)])
    ensures Detections([Slot(1.0, 1.0, 2.0, 2.0, 1.0, 1.0)], 40, 100, 0.5, labels) == Success([])
    ensures Detections([Slot(1.0, 1.0, 2.0, 2.0, 1.0, -1.0)], 40, 100, 0.5, labels)
            == Failure(LabelIndexOutOfRange(0, -1))
  {
    var one := [Slot(1.0, 1.0, 2.0, 2.0, 0.5, -0.5)];
    assert one[..0] == [];
    assert (0.5).Floor == 0;
    assert ClassIndex(one[0]) == 0;
    assert SlotBox(one[0], 40, 100) == Box(1, 1, 1, 1);
    assert Detections(one, 40, 100, 0.5, labels) == Success([] + [Predict(one[0], 40, 100, labels)]);
    assert Predict(one[0], 40, 100, labels) == ModelPrediction(labels[0], Box(1, 1, 1, 1), 0.5);
    assert [] + [Predict(one[0], 40, 100, labels)] == [ModelPrediction(labels[0], Box(1, 1, 1, 1), 0.5)];
    var two := [Slot(1.0, 1.0, 2.0, 2.0, 1.0, 1.0)];
    assert two[..0] == [];
    var three := [Slot(1.0, 1.0, 2.0, 2.0, 1.0, -1.0)];
    assert three[..0] == [];
  }
}
