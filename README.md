# OnnxExtensions pre- and post-processing core, in Dafny

This project models the three pieces of logic in OnnxExtensions, a C# helper library for running YOLO models through ONNX Runtime:

- **Detection output decoder** (`YoloHelper.ParseOutput` and `ParseDetect`). It picks the run output named by the model's first output name. It walks the `[1, N, 6]` slot table `(x1, y1, x2, y2, score, classId)` in slot order. It drops slots whose score is below the threshold or whose truncated class id is at least the label count. It clamps each corner coordinate to the image on its own. It appends `(label, rectangle, score)` for each kept slot.
- **Bitmap-to-tensor encoder** (`DenseTensorExtensions.To3ChDenseTensorFloat`). It turns a row-strided BGR or grayscale byte buffer into a `[1, 3, H, W]` tensor in R, G, B order, with every value divided by 255. Any other channel count is rejected.
- **Label table construction** (`InferSessExtensions.ToOnnxModel`) and the cyclic 8-color palette (`GetEnumerableColor`).

Files, one module each:

- `Wrappers.dfy`: `Option` and `Result`. Each C# exception becomes a `Failure` or `None` case.
- `Models.dfy`: `Color`, `ModelTaskDef`, `ModelLabel`, `Box`, `ModelPrediction`, and the `OnnxModel` class. `OnnxModel` has read-only `const` fields and a mutable `labels` sequence that `AddLabel` appends to.
- `InferSessExtensions.dfy`: the palette, `&` on unsigned integers as arithmetic bitwise-and, and `ToOnnxModel` as a counting loop that appends labels to a fresh model.
- `YoloHelper.dfy`: the slot table and the per-slot rules as functions. `Detections` is the specification function that `ParseDetect`'s loop is proved against. The lemmas cover order, the emit condition in both directions, error reporting, bounds and the empty case.
- `DenseTensorExtensions.dfy`: the `Mat` buffer. The tensor is an `array4<real>`, allocated zero-filled as `DenseTensor` is, and filled by nested loops. The lemmas cover the channel permutation, the value range, uniform images, padding independence and the byte-offset arithmetic. A ghost write log shows that every cell is written exactly once.

Modelling choices:

- Single-precision floats are reals. `(int)f` is truncation toward zero (`Trunc`). `r / 255f` is exact real division.
- The image given to the decoder contributes only its width and height. The inference engine, the session and the `(DenseTensor<float>)` cast are replaced by plain values: `NamedOnnxValue(name, OutputTensor(slots))`.
- The class-name map parsed from the session (`ParseNames`) is an input `map<int, string>`.
- `ToOnnxModel` takes the task kind as an explicit parameter. The C# call at `src/OnnxExtensions/Extensions/InferSessExtensions/InferSessExtensions.cs:22` passes four arguments to the five-parameter constructor at `src/OnnxExtensions/Models/OnnxModel.cs:43`.
- `ModelPrediction` declares a `RotatedRect` (`src/OnnxExtensions/Models/ModelPrediction.cs:26`). `ParseDetect` builds an axis-aligned `Rectangle` of truncated ints, so the model uses `Box(x, y, width, height)`.
- A slot that passes the filter with a negative truncated class id makes `Labels[classId]` throw. The model returns `Failure(LabelIndexOutOfRange(slot, classId))` for the first such slot.
- `GetEnumerableColor` takes a C# `uint` (`UInt`, a subset of `int`). `index & 7` is `BitAnd(index, 7)`, bitwise-and defined bit by bit.
- `ToOnnxModel` requires at most `IntMax` classes, because a C# `Dictionary` has an `int` count.
- `To3ChDenseTensorFloat` requires `RowsInBuffer`: every row's pixels fit in its stride, and the buffer reaches the end of the last row's pixels. An OpenCV `Mat` guarantees this, and the pointer reads depend on it.
- The two inner loops of `To3ChDenseTensorFloat` are separate methods, `FillColorRow` and `FillGrayRow`. This keeps each proof small. The outer loops and the channel dispatch remain in `To3ChDenseTensorFloat`.

Where a reader might expect oriented-box decoding, rejection of negative class ids, an RGB entry point or non-empty label names, the model follows the code:

- The code has no oriented-box decoding, no angle conversion and no dispatch on the task kind. `ParseOutput` always decodes axis-aligned detections.
- The code drops a slot only when its class id is too large. A kept slot with a negative class id throws; it is not dropped.
- The code has one encoder entry point, for BGR or gray `Mat` buffers. There is no RGB-ordered variant.
- Label names are not checked for being non-empty.

## Model

| member | source | states |
|---|---|---|
| `Models.OnnxModel.constructor` | src/OnnxExtensions/Models/OnnxModel.cs:43-50 | input dimensions, output dimensions, output names, labels and task kind are stored unchanged |
| `Models.OnnxModel.AddLabel` | src/OnnxExtensions/Extensions/InferSessExtensions/InferSessExtensions.cs:28 | the label list grows by exactly the given label at its end, and nothing else changes |
| `InferSessExtensions.BitAnd` | src/OnnxExtensions/Extensions/InferSessExtensions/InferSessExtensions.cs:56 | a bitwise-and never exceeds its mask, so `index & 7` always indexes the 8-entry palette |
| `InferSessExtensions.BitAndSevenIsMod` | src/OnnxExtensions/Extensions/InferSessExtensions/InferSessExtensions.cs:56 | `n & 7 == n mod 8` for every non-negative `n` |
| `InferSessExtensions.GetEnumerableColor` | src/OnnxExtensions/Extensions/InferSessExtensions/InferSessExtensions.cs:42-57 | the color of index `i` is palette entry `i mod 8` |
| `InferSessExtensions.PaletteCyclic` | src/OnnxExtensions/Extensions/InferSessExtensions/InferSessExtensions.cs:35-36 | `color(i + 8) == color(i)`, also where the unsigned addition wraps around |
| `InferSessExtensions.SameColorIff` | src/OnnxExtensions/Extensions/InferSessExtensions/InferSessExtensions.cs:44-56 | two indices get the same color if and only if they agree modulo 8, because the eight colors are distinct |
| `InferSessExtensions.PaletteOrder` | src/OnnxExtensions/Extensions/InferSessExtensions/InferSessExtensions.cs:37-54 | indices 0 to 7 give Blue, Red, Green, Yellow, Purple, Orange, Cyan, Magenta |
| `InferSessExtensions.LabelOf` | src/OnnxExtensions/Extensions/InferSessExtensions/InferSessExtensions.cs:28 | the label for id `i` has id `i`, name `classes[i]` and color palette entry `i mod 8` |
| `InferSessExtensions.ToOnnxModel` | src/OnnxExtensions/Extensions/InferSessExtensions/InferSessExtensions.cs:20-31 | succeeds if and only if every id below `classes.Count` is a key; otherwise reports the least missing id; on success the fresh model stores dimensions, names and task kind unchanged and holds exactly `Count` labels, with label `i` equal to `LabelOf(classes, i)` |
| `InferSessExtensions.KeysAreIds` | src/OnnxExtensions/Extensions/InferSessExtensions/InferSessExtensions.cs:26-28 | when construction succeeds, the key set is exactly `0 .. Count - 1` |
| `YoloHelper.Trunc` | src/OnnxExtensions/Helpers/YoloHelper/YoloHelper.cs:52 | the float-to-int cast truncates toward zero: the result lies within one unit of the value, on the side of zero |
| `YoloHelper.Clamp` | src/OnnxExtensions/Helpers/YoloHelper/YoloHelper.cs:58-61 | `Math.Clamp` returns a value in `[lo, hi]`: the value itself when it is in range, `lo` below the range and `hi` above it |
| `YoloHelper.ClassIndex` | src/OnnxExtensions/Helpers/YoloHelper/YoloHelper.cs:52 | the class id is negative if and only if the raw value is at most -1; it is 0 if and only if the raw value lies strictly between -1 and 1; a positive id is the integer part of the raw value |
| `YoloHelper.PassesFilter` | src/OnnxExtensions/Helpers/YoloHelper/YoloHelper.cs:54-55 | with at least one label, a slot survives the filter if and only if its score reaches the threshold and its raw class id is below the label count; with no labels, only slots whose raw class id is at most -1 survive |
| `YoloHelper.Detections` | src/OnnxExtensions/Helpers/YoloHelper/YoloHelper.cs:45-69 | the slot-by-slot decoding that `ParseDetect` is proved against; a successful result has at most one prediction per slot |
| `YoloHelper.SlotBox` | src/OnnxExtensions/Helpers/YoloHelper/YoloHelper.cs:58-67 | origin and far corner of the box lie in `[0, W] x [0, H]`; width (height) is positive if and only if the clamped corners are at least one unit apart in order, and negative if and only if they are at least one unit apart in reverse order |
| `YoloHelper.FailurePersists` | src/OnnxExtensions/Helpers/YoloHelper/YoloHelper.cs:45-68 | once a slot's label lookup fails, decoding the remaining slots does not change the outcome |
| `YoloHelper.ParseDetect` | src/OnnxExtensions/Helpers/YoloHelper/YoloHelper.cs:29-72 | the loop over slots returns exactly `Detections` of the slots, the image size, the threshold and the model's labels |
| `YoloHelper.FirstNamed` | src/OnnxExtensions/Helpers/YoloHelper/YoloHelper.cs:25 | finds the first output with the given name, and finds none exactly when no output has that name |
| `YoloHelper.ParseOutput` | src/OnnxExtensions/Helpers/YoloHelper/YoloHelper.cs:17-27 | fails when the model has no output names; fails when no run output has the first name; otherwise decodes exactly the first output with that name |
| `YoloHelper.EmittedSlots` | src/OnnxExtensions/Helpers/YoloHelper/YoloHelper.cs:45-55 | lists positions in strictly ascending order, each an emitting slot, with every emitting slot among them, and no more positions than slots |
| `YoloHelper.DetectionsOutcome` | src/OnnxExtensions/Helpers/YoloHelper/YoloHelper.cs:52-66 | decoding succeeds if and only if no slot passes the filter with a negative class id; a failure names the first such slot and its class id |
| `YoloHelper.DetectionsAreEmittedSlots` | src/OnnxExtensions/Helpers/YoloHelper/YoloHelper.cs:45-69 | on success there is one prediction per emitting slot, in slot order; prediction `k` keeps the raw score of the `k`-th emitting slot, takes the label `Labels[classId]` of its class id, and takes its box `SlotBox` of the clamped corners |
| `YoloHelper.DetectionsSound` | src/OnnxExtensions/Helpers/YoloHelper/YoloHelper.cs:54-68 | on success there are at most `N` predictions; each has score at least the threshold, a label from the model, and origin and far corner inside the image |
| `YoloHelper.LabelIdsAreClassIds` | src/OnnxExtensions/Helpers/YoloHelper/YoloHelper.cs:66 | when entry `i` of the label list has id `i`, as `ToOnnxModel` builds it, each prediction's label id is its slot's class id and lies in `[0, Labels.Count)` |
| `YoloHelper.NothingAboveThreshold` | src/OnnxExtensions/Helpers/YoloHelper/YoloHelper.cs:36-71 | with no slots, or with every score below the threshold, the result is the empty list |
| `YoloHelper.ThresholdAboveAllScores` | src/OnnxExtensions/Helpers/YoloHelper/YoloHelper.cs:54-55 | with scores in `[0, 1]` and a threshold above 1, the result is the empty list |
| `YoloHelper.SlotExamples` | src/OnnxExtensions/Helpers/YoloHelper/YoloHelper.cs:52-67 | worked cases: both x corners clamped into `[0, 40]`; a negative width; class id -0.5 truncated to 0 and kept; class id equal to the label count dropped at score 1; class id -1 failing the lookup |
| `DenseTensorExtensions.RowFits` | src/OnnxExtensions/Extensions/DenseTensorExtensions.cs:36 | row `y` starts at `y * step`, and its pixel bytes lie inside the buffer |
| `DenseTensorExtensions.SourceOffset` | src/OnnxExtensions/Extensions/DenseTensorExtensions.cs:36-57 | every byte read for row `y` lies in that row and before its padding, and inside the buffer |
| `DenseTensorExtensions.Intensity` | src/OnnxExtensions/Extensions/DenseTensorExtensions.cs:43-57 | every tensor value lies in `[0, 1]` |
| `DenseTensorExtensions.ChannelsFromPixel` | src/OnnxExtensions/Extensions/DenseTensorExtensions.cs:39-60 | channels 0, 1, 2 of a color pixel hold its bytes at `+2`, `+1`, `+0` (red, green, blue of BGR storage), over 255; a gray pixel's byte, over 255, fills all three channels |
| `DenseTensorExtensions.UniformImage` | src/OnnxExtensions/Extensions/DenseTensorExtensions.cs:43-60 | an image whose bytes are all `v` encodes to `v / 255` in every cell |
| `DenseTensorExtensions.PaddingIrrelevant` | src/OnnxExtensions/Extensions/DenseTensorExtensions.cs:29-57 | two images of the same geometry that agree on every row's pixel bytes encode alike, whatever their padding |
| `DenseTensorExtensions.RowsDisjoint` | src/OnnxExtensions/Extensions/DenseTensorExtensions.cs:29-36 | with `step >= width * channels`, every pixel byte of a row comes before every byte of a later row |
| `DenseTensorExtensions.SourceOffsetInjective` | src/OnnxExtensions/Extensions/DenseTensorExtensions.cs:36-57 | distinct pixels are read from distinct bytes, and so are distinct channels of a color pixel |
| `DenseTensorExtensions.EveryColorByteRead` | src/OnnxExtensions/Extensions/DenseTensorExtensions.cs:39-41 | every pixel byte `k` of a color row is read exactly by channel `2 - k mod 3` of pixel `k / 3` |
| `DenseTensorExtensions.FillColorRow` | src/OnnxExtensions/Extensions/DenseTensorExtensions.cs:36-46 | after row `y` of a color image, the cells of rows up to `y` hold their values, all later cells are still 0, and each cell of rows up to `y` has been written once |
| `DenseTensorExtensions.FillGrayRow` | src/OnnxExtensions/Extensions/DenseTensorExtensions.cs:54-61 | the same for a grayscale row |
| `DenseTensorExtensions.To3ChDenseTensorFloat` | src/OnnxExtensions/Extensions/DenseTensorExtensions.cs:19-70 | fails with the channel count if and only if it is neither 1 nor 3; otherwise returns a fresh `[1, 3, H, W]` tensor whose cell `[0, c, y, x]` is `Intensity(image, c, y, x)`; every in-range cell is written exactly once and no other cell is written |

## Left out

- Metadata getters, left out as foreign calls on the session. These are `CustomMetadataMap`, `Args`, `Names`, `Imgsz`, `Channels`, `Date`, `Stride`, `Batch`, `OutputMetadata` and `InputMetadata`. They are dictionary lookups plus `JsonSerializer`, `int.TryParse` and `DateTime.TryParse`. The class-name map they produce is an input here.
- `JsonExtensions.ToValidJson`: two .NET `Regex.Replace` calls. Their behaviour is the regex engine's.
- `InferSessionHelper`: embedded-resource I/O and `InferenceSession` construction.
- `ImageData`: a property bag that no modelled code uses.
- The inference run itself and the disposal of its outputs.
- `DenseTensor`, `Mat` and `Image<Rgb24>` as library types. They become sequences, an `array4<real>`, and width/height parameters.
- Reference identity. `OnnxModel` stores the caller's dimension arrays, name array and label list by reference in C#. The model stores them as values, so aliasing with the caller is not modelled. `ModelLabel` and `ModelPrediction` are C# classes with property setters (`src/OnnxExtensions/Models/ModelLabel.cs:17-27`, `src/OnnxExtensions/Models/ModelPrediction.cs:20-31`), and the prediction built in `ParseDetect` (`src/OnnxExtensions/Helpers/YoloHelper/YoloHelper.cs:66-68`) shares its `ModelLabel` object with `model.Labels`. The model makes both plain datatypes. No modelled code mutates them after construction, so the modelled behaviour is unaffected; only the sharing itself is not represented.
- To3ChDenseTensorFloat: does not model 32-bit integer arithmetic. In the C# code `(int)image.Step()` truncates a stride above 2^31 - 1, and `y * step` in `ptr + y * step` wraps once `(height - 1) * step` exceeds 2^31 - 1 (for example width 1, step 300000, height 10000); the pointer then lands outside the row. The model uses unbounded integers, so it reads the intended row in those cases.
- IEEE single precision. The model does not capture the rounding of `r / 255f`, NaN in `Math.Clamp` or in the score comparison, or float-to-int overflow in the casts.
- Output tensors whose shape is not `[1, N, 6]`. The `(DenseTensor<float>)` cast and the `[0, i, k]` index checks are not modelled, because slots are given as 6-field records.
- Oriented-box decoding, angle conversion and task-kind dispatch. No modelled file implements them, and `ParseOutput` never reads `TaskDef`.
- `ModelLabel.ToString`: it depends on `System.Drawing.Color` formatting.
