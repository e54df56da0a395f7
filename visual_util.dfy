/** Pixel tensors and the frame-resizing collaborator (src/visual_util.py).

    Frames and observations are numpy arrays of shape (height, width,
    channels); here an image is the nested sequence rows -> columns ->
    channels.  `compress` wraps a floating-point image resize from an
    external library, so it enters the model as a parameter of type
    `Compressor`; the model relies only on the shape of what it returns. */
module VisualUtil {

  type Image = seq<seq<seq<int>>>

  datatype Shape = Shape(height: nat, width: nat, channels: nat)

  predicate HasShape(img: Image, shape: Shape) {
    |img| == shape.height && forall y :: 0 <= y < |img| ==> RowHasShape(img[y], shape.width, shape.channels)
  }

  predicate RowHasShape(row: seq<seq<int>>, width: nat, channels: nat) {
    |row| == width && forall x :: 0 <= x < |row| ==> |row[x]| == channels
  }

  /** Every channel value fits an unsigned byte (numpy's uint8). */
  predicate IsUint8(img: Image) {
    forall y, x, c :: 0 <= y < |img| && 0 <= x < |img[y]| && 0 <= c < |img[y][x]| ==> 0 <= img[y][x][c] <= 255
  }

  /** `compress(original, output_shape)` */
  type Compressor = (Image, Shape) -> Image

  /** What the model assumes of `compress`: the output has the requested shape and uint8 pixels. */
  ghost predicate Resizes(compress: Compressor) {
    forall img, shape :: HasShape(compress(img, shape), shape) && IsUint8(compress(img, shape))
  }

  /** `np.zeros(shape, dtype=np.uint8)` */
  function Zeros(shape: Shape): (img: Image)
    ensures HasShape(img, shape) && IsUint8(img)
    ensures forall y, x, c :: 0 <= y < shape.height && 0 <= x < shape.width && 0 <= c < shape.channels ==> img[y][x][c] == 0
  {
    seq(shape.height, _ => seq(shape.width, _ => seq(shape.channels, _ => 0)))
  }

  /** `.flatten()` in row-major order: rows, then columns, then channels. */
  function Flatten(img: Image): seq<int> {
    if img == [] then [] else FlattenRow(img[0]) + Flatten(img[1..])
  }

  function FlattenRow(row: seq<seq<int>>): seq<int> {
    if row == [] then [] else row[0] + FlattenRow(row[1..])
  }

  /** A flattened (h, w, c) image has h * w * c components (4320 for 36 x 40 x 3). */
  lemma {:induction false} FlattenLength(img: Image, shape: Shape)
    requires HasShape(img, shape)
    ensures |Flatten(img)| == shape.height * (shape.width * shape.channels)
  {
    if img != [] {
      var rest := Shape(shape.height - 1, shape.width, shape.channels);
      assert HasShape(img[1..], rest);
      FlattenRowLength(img[0], shape.width, shape.channels);
      FlattenLength(img[1..], rest);
      MulStep(shape.height, shape.width * shape.channels);
    }
  }

  lemma MulStep(h: nat, k: nat)
    requires h > 0
    ensures h * k == k + (h - 1) * k
  {
  }

  lemma {:induction false} FlattenRowLength(row: seq<seq<int>>, width: nat, channels: nat)
    requires RowHasShape(row, width, channels)
    ensures |FlattenRow(row)| == width * channels
  {
    if row != [] {
      FlattenRowLength(row[1..], width - 1, channels);
    }
  }
}
