/** Encoding a bitmap as the network's input tensor
    (src/OnnxExtensions/Extensions/DenseTensorExtensions.cs). The OpenCV
    `Mat` is given by its geometry and its byte buffer; the tensor of shape
    `[1, 3, height, width]` is a four-dimensional array of reals. */
module DenseTensorExtensions {
  import opened Wrappers

  newtype byte = x: int | 0 <= x < 256

  /** A bitmap: `step` bytes per row, `channels` bytes per pixel, rows one
      after another in `data`. */
  datatype Mat = Mat(width: nat, height: nat, channels: nat, step: nat, data: seq<byte>)

  /** The failure of the encoder: a channel count other than 1 or 3. */
  datatype EncodeError = UnsupportedChannels(channels: int)

  /** A cell `[0, c, y, x]` of the tensor. */
  datatype Cell = Cell(c: int, y: int, x: int)

  /** What every `Mat` guarantees: a row's pixels fit in its stride, and the
      buffer reaches to the end of the last row's pixels. */
  predicate RowsInBuffer(m: Mat)
  {
    && m.width * m.channels <= m.step
    && (m.height > 0 ==> (m.height - 1) * m.step + m.width * m.channels <= |m.data|)
  }

  /** The cell lies inside a tensor of shape `[1, 3, height, width]`. */
  predicate InTensor(m: Mat, cell: Cell)
  {
    0 <= cell.c < 3 && 0 <= cell.y < m.height && 0 <= cell.x < m.width
  }

  /** Row `y` of the image starts `y * step` bytes into the buffer and its
      pixels lie within the buffer. */
  lemma {:induction false} RowFits(m: Mat, y: nat)
    requires RowsInBuffer(m) && y < m.height
    ensures y * m.step + m.width * m.channels <= |m.data|
  {
  }

  /** Multiplying both sides of `a <= b` by the same natural keeps the order. */
  lemma MulLe(a: nat, b: nat, c: nat)
    requires a <= b
    ensures a * c <= b * c
  {
  }

  /** The bytes of pixel `(y, x)` in storage order: blue, green, red for a
      color image, the gray value for a grayscale one. */
  function Pixel(m: Mat, y: nat, x: nat): (p: seq<byte>)
    requires RowsInBuffer(m) && y < m.height && x < m.width
    ensures |p| == m.channels
  {
    RowFits(m, y);
    MulLe(x + 1, m.width, m.channels);
    m.data[y * m.step + x * m.channels .. y * m.step + (x + 1) * m.channels]
  }

  /** The byte that cell `[0, c, y, x]` is read from: for a color image the
      red, green and blue bytes of the pixel in channels 0, 1, 2; for a
      grayscale image its one byte in every channel. The offset lies in row
      `y`, before the row's padding. */
  function SourceOffset(m: Mat, c: nat, y: nat, x: nat): (o: nat)
    requires m.channels == 1 || m.channels == 3
    requires RowsInBuffer(m) && c < 3 && y < m.height && x < m.width
    ensures y * m.step <= o < y * m.step + m.width * m.channels <= |m.data|
  {
    RowFits(m, y);
    if m.channels == 3 then y * m.step + x * 3 + (2 - c) else y * m.step + x
  }

  /** The normalized value of cell `[0, c, y, x]`: its source byte over 255. */
  function Intensity(m: Mat, c: nat, y: nat, x: nat): (v: real)
    requires m.channels == 1 || m.channels == 3
    requires RowsInBuffer(m) && c < 3 && y < m.height && x < m.width
    ensures 0.0 <= v <= 1.0
  {
    m.data[SourceOffset(m, c, y, x)] as real / 255.0
  }

  /** Byte `k` of row `y`. */
  function RowByte(m: Mat, y: nat, k: nat): byte
    requires RowsInBuffer(m) && y < m.height && k < m.width * m.channels
  {
    RowFits(m, y);
    m.data[y * m.step + k]
  }

  /** The channel permutation: channels 0, 1, 2 of a color pixel hold its red,
      green and blue bytes, which are stored in the order blue, green, red; a
      gray pixel's byte goes to all three channels. */
  lemma ChannelsFromPixel(m: Mat, y: nat, x: nat)
    requires m.channels == 1 || m.channels == 3
    requires RowsInBuffer(m) && y < m.height && x < m.width
    ensures var p := Pixel(m, y, x);
      m.channels == 3 ==> && Intensity(m, 0, y, x) == p[2] as real / 255.0
                          && Intensity(m, 1, y, x) == p[1] as real / 255.0
                          && Intensity(m, 2, y, x) == p[0] as real / 255.0
    ensures var p := Pixel(m, y, x);
      m.channels == 1 ==> && Intensity(m, 0, y, x) == p[0] as real / 255.0
                          && Intensity(m, 1, y, x) == p[0] as real / 255.0
                          && Intensity(m, 2, y, x) == p[0] as real / 255.0
  {
  }

  /** An image whose bytes all equal `v` gives `v / 255` in every cell. */
  lemma UniformImage(m: Mat, v: byte)
    requires m.channels == 1 || m.channels == 3
    requires RowsInBuffer(m)
    requires forall i :: 0 <= i < |m.data| ==> m.data[i] == v
    ensures forall c, y, x :: 0 <= c < 3 && 0 <= y < m.height && 0 <= x < m.width ==>
              Intensity(m, c, y, x) == v as real / 255.0
  {
  }

  /** Only the pixel bytes of each row are read: two images of one geometry
      that differ only in row padding, or past the last row, encode alike. */
  lemma PaddingIrrelevant(a: Mat, b: Mat)
    requires a.channels == 1 || a.channels == 3
    requires RowsInBuffer(a) && RowsInBuffer(b)
    requires a.width == b.width && a.height == b.height && a.channels == b.channels && a.step == b.step
    requires forall y, k :: 0 <= y < a.height && 0 <= k < a.width * a.channels ==> RowByte(a, y, k) == RowByte(b, y, k)
    ensures forall c, y, x :: 0 <= c < 3 && 0 <= y < a.height && 0 <= x < a.width ==>
              Intensity(a, c, y, x) == Intensity(b, c, y, x)
  {
    forall c, y, x | 0 <= c < 3 && 0 <= y < a.height && 0 <= x < a.width
      ensures Intensity(a, c, y, x) == Intensity(b, c, y, x)
    {
      var o := SourceOffset(a, c, y, x);
      assert o == y * a.step + (o - y * a.step);
      assert RowByte(a, y, o - y * a.step) == RowByte(b, y, o - y * a.step);
    }
  }

  /** Rows that start `step` bytes apart do not overlap: a byte of row `y1`
      comes before every byte of a later row `y2`. */
  lemma {:induction false} RowsDisjoint(m: Mat, y1: nat, y2: nat, k: nat)
    requires RowsInBuffer(m) && y1 < y2 && k < m.width * m.channels
    ensures y1 * m.step + k < y2 * m.step
  {
    var d: nat := y2 - y1 - 1;
    assert y2 * m.step == y1 * m.step + m.step + d * m.step;
    assert d * m.step >= 0;
  }

  /** Distinct pixels are read from distinct bytes, and for a color image so
      are distinct channels of one pixel. */
  lemma SourceOffsetInjective(m: Mat, c1: nat, y1: nat, x1: nat, c2: nat, y2: nat, x2: nat)
    requires m.channels == 1 || m.channels == 3
    requires RowsInBuffer(m) && c1 < 3 && y1 < m.height && x1 < m.width && c2 < 3 && y2 < m.height && x2 < m.width
    requires SourceOffset(m, c1, y1, x1) == SourceOffset(m, c2, y2, x2)
    ensures y1 == y2 && x1 == x2 && (m.channels == 3 ==> c1 == c2)
  {
    var o1, o2 := SourceOffset(m, c1, y1, x1), SourceOffset(m, c2, y2, x2);
    if y1 < y2 {
      RowsDisjoint(m, y1, y2, o1 - y1 * m.step);
    } else if y2 < y1 {
      RowsDisjoint(m, y2, y1, o2 - y2 * m.step);
    }
  }

  /** Every pixel byte of a color row is read, by the cell whose channel
      reverses its position within the pixel. */
  lemma EveryColorByteRead(m: Mat, y: nat, k: nat)
    requires m.channels == 3 && RowsInBuffer(m) && y < m.height && k < 3 * m.width
    ensures SourceOffset(m, 2 - k % 3, y, k / 3) == y * m.step + k
  {
  }

  /** The number of writes a ghost log records for a cell. */
  function Tally(writes: map<Cell, nat>, cell: Cell): nat
  {
    if cell in writes then writes[cell] else 0
  }

  /** The log after one more write to `cell`. */
  function Record(writes: map<Cell, nat>, cell: Cell): (w: map<Cell, nat>)
    ensures Tally(w, cell) == Tally(writes, cell) + 1
    ensures forall other :: other != cell ==> Tally(w, other) == Tally(writes, other)
  {
    writes[cell := Tally(writes, cell) + 1]
  }

  /** Pixel `(yy, xx)` comes before pixel `(y, x)` in row-major order. */
  predicate Before(yy: int, xx: int, y: int, x: int)
  {
    yy < y || (yy == y && xx < x)
  }

  /** The tensor has shape `[1, 3, height, width]`. */
  predicate HasShapeOf(t: array4<real>, m: Mat)
  {
    t.Length0 == 1 && t.Length1 == 3 && t.Length2 == m.height && t.Length3 == m.width
  }

  /** The cells of the pixels before `(y, x)` hold their intensities and all
      others still hold the initial 0. */
  ghost predicate FilledBefore(t: array4<real>, m: Mat, y: int, x: int)
    requires m.channels == 1 || m.channels == 3
    requires RowsInBuffer(m) && HasShapeOf(t, m)
    reads t
  {
    forall c, yy, xx :: 0 <= c < 3 && 0 <= yy < m.height && 0 <= xx < m.width ==>
      t[0, c, yy, xx] == if Before(yy, xx, y, x) then Intensity(m, c, yy, xx) else 0.0
  }

  /** The log holds one write for each cell of the pixels before `(y, x)` and
      none for any other cell. */
  ghost predicate LoggedBefore(writes: map<Cell, nat>, m: Mat, y: int, x: int)
  {
    forall cell :: Tally(writes, cell) == if InTensor(m, cell) && Before(cell.y, cell.x, y, x) then 1 else 0
  }

  /** The inner loop over row `y` of a color image: each pixel's blue, green
      and red bytes go to channels 2, 1 and 0. */
  method FillColorRow(image: Mat, tensor: array4<real>, y: nat, ghost writes0: map<Cell, nat>)
    returns (ghost writes: map<Cell, nat>)
    requires image.channels == 3 && RowsInBuffer(image) && HasShapeOf(tensor, image) && y < image.height
    requires FilledBefore(tensor, image, y, 0) && LoggedBefore(writes0, image, y, 0)
    modifies tensor
    ensures FilledBefore(tensor, image, y + 1, 0) && LoggedBefore(writes, image, y + 1, 0)
  {
    RowFits(image, y);
    writes := writes0;
    var rowStart := y * image.step;
    var x := 0;
    while x < image.width
      invariant 0 <= x <= image.width
      invariant FilledBefore(tensor, image, y, x) && LoggedBefore(writes, image, y, x)
    {
      var b := image.data[rowStart + x * 3 + 0];
      var g := image.data[rowStart + x * 3 + 1];
      var r := image.data[rowStart + x * 3 + 2];
      assert Intensity(image, 0, y, x) == r as real / 255.0;
      assert Intensity(image, 1, y, x) == g as real / 255.0;
      assert Intensity(image, 2, y, x) == b as real / 255.0;
      tensor[0, 0, y, x] := r as real / 255.0;
      tensor[0, 1, y, x] := g as real / 255.0;
      tensor[0, 2, y, x] := b as real / 255.0;
      writes := Record(Record(Record(writes, Cell(0, y, x)), Cell(1, y, x)), Cell(2, y, x));
      x := x + 1;
    }
  }

  /** The inner loop over row `y` of a grayscale image: each pixel's byte goes
      to all three channels. */
  method FillGrayRow(image: Mat, tensor: array4<real>, y: nat, ghost writes0: map<Cell, nat>)
    returns (ghost writes: map<Cell, nat>)
    requires image.channels == 1 && RowsInBuffer(image) && HasShapeOf(tensor, image) && y < image.height
    requires FilledBefore(tensor, image, y, 0) && LoggedBefore(writes0, image, y, 0)
    modifies tensor
    ensures FilledBefore(tensor, image, y + 1, 0) && LoggedBefore(writes, image, y + 1, 0)
  {
    RowFits(image, y);
    writes := writes0;
    var rowStart := y * image.step;
    var x := 0;
    while x < image.width
      invariant 0 <= x <= image.width
      invariant FilledBefore(tensor, image, y, x) && LoggedBefore(writes, image, y, x)
    {
      var normalized := image.data[rowStart + x] as real / 255.0;
      tensor[0, 0, y, x] := normalized;
      tensor[0, 1, y, x] := normalized;
      tensor[0, 2, y, x] := normalized;
      writes := Record(Record(Record(writes, Cell(0, y, x)), Cell(1, y, x)), Cell(2, y, x));
      x := x + 1;
    }
  }

  /** `To3ChDenseTensorFloat`: a fresh `[1, 3, height, width]` tensor with
      cell `[0, c, y, x]` equal to `Intensity(image, c, y, x)`, filled row by
      row with every cell written exactly once (the ghost log `writes`
      counts the writes); any channel count other than 1 or 3 fails. */
  method To3ChDenseTensorFloat(image: Mat) returns (r: Result<array4<real>, EncodeError>, ghost writes: map<Cell, nat>)
    requires RowsInBuffer(image)
    ensures r.Failure? <==> image.channels != 1 && image.channels != 3
    ensures r.Failure? ==> r.error == UnsupportedChannels(image.channels)
    ensures r.Success? ==> var t := r.value;
      && fresh(t) && HasShapeOf(t, image)
      && forall c, y, x :: 0 <= c < 3 && 0 <= y < image.height && 0 <= x < image.width ==>
           t[0, c, y, x] == Intensity(image, c, y, x)
    ensures r.Success? ==> forall cell :: Tally(writes, cell) == if InTensor(image, cell) then 1 else 0
  {
    var width, height, channels := image.width, image.height, image.channels;
    var tensor := new real[1, 3, height, width]((n, c, y, x) => 0.0);
    writes := map[];
    if channels == 3 {
      var y := 0;
      while y < height
        invariant 0 <= y <= height
        invariant FilledBefore(tensor, image, y, 0) && LoggedBefore(writes, image, y, 0)
      {
        writes := FillColorRow(image, tensor, y, writes);
        y := y + 1;
      }
    } else if channels == 1 {
      var y := 0;
      while y < height
        invariant 0 <= y <= height
        invariant FilledBefore(tensor, image, y, 0) && LoggedBefore(writes, image, y, 0)
      {
        writes := FillGrayRow(image, tensor, y, writes);
        y := y + 1;
      }
    } else {
      return Failure(UnsupportedChannels(channels)), writes;
    }
    return Success(tensor), writes;
  }
}
