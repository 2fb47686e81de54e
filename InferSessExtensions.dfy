/** Building the model description from an inference session
    (src/OnnxExtensions/Extensions/InferSessExtensions/InferSessExtensions.cs).
    The session itself is foreign: its dimensions, output names and parsed
    class-name table arrive here as plain values. */
module InferSessExtensions {
  import opened Wrappers
  import opened Models

  /** The built-in display palette, in index order. */
  const Palette: seq<Color> := [Blue, Red, Green, Yellow, Purple, Orange, Cyan, Magenta]

  /** The largest value of a C# `int`: a `Dictionary` holds at most this many entries. */
  const IntMax: int := 0x7FFF_FFFF

  /** A C# `uint`. */
  type UInt = x: int | 0 <= x < 0x1_0000_0000

  /** Unsigned 32-bit addition, which wraps around. */
  function AddWrap(a: UInt, b: UInt): UInt
  {
    (a + b) % 0x1_0000_0000
  }

  /** Bitwise `&` of two non-negative integers, bit by bit from the lowest. */
  function BitAnd(a: nat, b: nat): (r: nat)
    ensures r <= b
    decreases a
  {
    if a == 0 || b == 0 then 0
    else 2 * BitAnd(a / 2, b / 2) + (if a % 2 == 1 && b % 2 == 1 then 1 else 0)
  }

  /** Masking with 7 keeps the low three bits, which is the remainder modulo 8. */
  lemma BitAndSevenIsMod(n: nat)
    ensures BitAnd(n, 7) == n % 8
  {
    if n > 0 {
      var m := n / 2;
      if m > 0 {
        var k := m / 2;
        if k > 0 {
          assert BitAnd(k, 1) == k % 2;
        }
        assert BitAnd(m, 3) == m % 4;
      }
    }
  }

  /** `GetEnumerableColor`: the palette entry at `index & 7`. The mask keeps the
      index in bounds and selects the index modulo 8. */
  function GetEnumerableColor(index: UInt): (r: Color)
    ensures r == Palette[index % 8]
  {
    BitAndSevenIsMod(index);
    Palette[BitAnd(index, 7)]
  }

  /** The palette repeats every eight indices, also where the unsigned
      addition wraps around. */
  lemma PaletteCyclic(index: UInt)
    ensures GetEnumerableColor(AddWrap(index, 8)) == GetEnumerableColor(index)
  {
    var j := AddWrap(index, 8);
    assert j % 8 == index % 8 by {
      if index + 8 >= 0x1_0000_0000 {
        assert j == index + 8 - 0x1_0000_0000;
      } else {
        assert j == index + 8;
      }
    }
    assert GetEnumerableColor(j) == Palette[j % 8];
  }

  /** Two indices get the same color exactly when they agree modulo 8. */
  lemma SameColorIff(i: UInt, j: UInt)
    ensures GetEnumerableColor(i) == GetEnumerableColor(j) <==> i % 8 == j % 8
  {
  }

  /** Indices 0 to 7 give the eight colors in their documented order. */
  lemma PaletteOrder()
    ensures [GetEnumerableColor(0), GetEnumerableColor(1), GetEnumerableColor(2), GetEnumerableColor(3),
             GetEnumerableColor(4), GetEnumerableColor(5), GetEnumerableColor(6), GetEnumerableColor(7)]
            == [Blue, Red, Green, Yellow, Purple, Orange, Cyan, Magenta]
  {
  }

  /** Every id from 0 below `n` is a key of the class table. */
  predicate HasIdsBelow(classes: map<int, string>, n: int)
  {
    forall i :: 0 <= i < n ==> i in classes
  }

  /** The label the table entry for id `i` becomes. */
  function LabelOf(classes: map<int, string>, i: int): (l: ModelLabel)
    requires 0 <= i <= IntMax && i in classes
    ensures l.id == i && l.name == classes[i] && l.color == Palette[i % 8]
  {
    ModelLabel(i, classes[i], GetEnumerableColor(i))
  }

  /** The failures of `ToOnnxModel`. */
  datatype BuildError = KeyNotFound(key: int)

  /** `ToOnnxModel`: a model whose label list is built by appending one label
      per id `0 .. classes.Count - 1`. Looking up an id that is not a key
      fails, and the first such id is reported. The session-derived values are
      stored unchanged, and the task kind is an explicit argument. */
  method ToOnnxModel(inputDimensions: seq<int>, outputDimensions: seq<int>, outputs: seq<string>,
                     classes: map<int, string>, taskDef: ModelTaskDef)
    returns (r: Result<OnnxModel, BuildError>)
    requires |classes| <= IntMax
    ensures r.Success? <==> HasIdsBelow(classes, |classes|)
    ensures r.Failure? ==> 0 <= r.error.key < |classes| && r.error.key !in classes
                           && HasIdsBelow(classes, r.error.key)
    ensures r.Success? ==> fresh(r.value)
    ensures r.Success? ==> var m := r.value;
      && m.inputDimensions == inputDimensions && m.outputDimensions == outputDimensions
      && m.outputs == outputs && m.taskDef == taskDef
      && |m.labels| == |classes| && IndexedLabels(m.labels)
      && forall i :: 0 <= i < |m.labels| ==> m.labels[i] == LabelOf(classes, i)
  {
    var model := new OnnxModel(inputDimensions, outputDimensions, outputs, [], taskDef);
    var i := 0;
    while i < |classes|
      invariant 0 <= i <= |classes|
      invariant HasIdsBelow(classes, i)
      invariant |model.labels| == i
      invariant forall j :: 0 <= j < i ==> model.labels[j] == LabelOf(classes, j)
    {
      if i !in classes {
        return Failure(KeyNotFound(i));
      }
      model.AddLabel(LabelOf(classes, i));
      i := i + 1;
    }
    return Success(model);
  }

  /** The ids `0 .. n - 1`. */
  function IdsBelow(n: nat): (ids: set<int>)
    ensures forall i :: i in ids <==> 0 <= i < n
    ensures |ids| == n
  {
    if n == 0 then {} else IdsBelow(n - 1) + {n - 1}
  }

  /** When construction succeeds, the table's keys are exactly `0 .. Count - 1`. */
  lemma KeysAreIds(classes: map<int, string>)
    requires HasIdsBelow(classes, |classes|)
    ensures classes.Keys == IdsBelow(|classes|)
  {
    var ids := IdsBelow(|classes|);
    assert ids <= classes.Keys;
    assert classes.Keys == ids + (classes.Keys - ids);
    assert |classes.Keys - ids| == 0;
  }
}
