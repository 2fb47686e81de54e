/** The shared vocabulary of the library: labels, predictions, task kinds and
    the loaded-model description (src/OnnxExtensions/Models). */
module Models {

  /** The eight named colors of the built-in palette. */
  datatype Color = Blue | Red | Green | Yellow | Purple | Orange | Cyan | Magenta

  /** The five task kinds a YOLO model may declare. */
  datatype ModelTaskDef = Detect | Segment | Classify | Pose | OrientedBoundingBoxes

  /** A class of the model: its id, its name and its display color. */
  datatype ModelLabel = ModelLabel(id: int, name: string, color: Color)

  /** The entry at position `i` of a label list has id `i`. */
  predicate IndexedLabels(labels: seq<ModelLabel>)
  {
    forall i :: 0 <= i < |labels| ==> labels[i].id == i
  }

  /** An axis-aligned rectangle of integer coordinates: top-left corner and size. */
  datatype Box = Box(x: int, y: int, width: int, height: int)

  /** One detection: the label (`modelLabel`, since `label` is a Dafny keyword), the rectangle around the object and the score. */
  datatype ModelPrediction = ModelPrediction(modelLabel: ModelLabel, rectangle: Box, score: real)

  /** A loaded model. Every property is read-only except the label list, which
      is built in place by appending after construction. */
  class OnnxModel {
    const taskDef: ModelTaskDef
    const inputDimensions: seq<int>
    const outputDimensions: seq<int>
    const outputs: seq<string>
    var labels: seq<ModelLabel>

    constructor (inputDimensions: seq<int>, outputDimensions: seq<int>, outputs: seq<string>,
                 labels: seq<ModelLabel>, taskDef: ModelTaskDef)
      ensures this.inputDimensions == inputDimensions
      ensures this.outputDimensions == outputDimensions
      ensures this.outputs == outputs
      ensures this.labels == labels
      ensures this.taskDef == taskDef
    {
      this.inputDimensions := inputDimensions;
      this.outputDimensions := outputDimensions;
      this.outputs := outputs;
      this.labels := labels;
      this.taskDef := taskDef;
    }

    /** `Labels.Add(label)`: the list grows by one entry at its end. */
    method AddLabel(entry: ModelLabel)
      modifies this
      ensures labels == old(labels) + [entry]
    {
      labels := labels + [entry];
    }
  }
}
