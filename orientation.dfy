/**
  What `Bitmap.createBitmap(src, 0, 0, width, height, matrix, true)` does
  with the matrix getFrameBuffer builds.
 */
module Orientation {
  import opened Pixels
  import opened AndroidMatrix

  /** The source coordinate along an axis of length n for destination i. */
  function SourceIndex(negate: bool, i: int, n: nat): int
  {
    if negate then n - 1 - i else i
  }

  /**
    `Bitmap.createBitmap(src, 0, 0, src.width, src.height, m, true)` for a
    matrix that keeps the axes in place (a mirroring, or none): the mapped
    bitmap is moved back into the positive quadrant and every destination
    pixel takes the source pixel whose centre lands on its centre, so the
    filter flag changes nothing.
   */
  function CreateBitmap(src: Bitmap, m: AxisMatrix): (dst: Bitmap)
    requires src.Valid() && !m.swapAxes
    ensures dst.Valid() && dst.width == src.width && dst.height == src.height
  {
    Bitmap(src.width, src.height,
      seq(src.height, y requires 0 <= y < src.height =>
        MirrorRow(src.pixels[SourceIndex(m.negateY, y, src.height)], m.negateX)))
  }

  /** One row of CreateBitmap: reversed when `negate` holds. */
  function MirrorRow(row: seq<Rgba>, negate: bool): (mirrored: seq<Rgba>)
    ensures |mirrored| == |row|
  {
    seq(|row|, x requires 0 <= x < |row| => row[SourceIndex(negate, x, |row|)])
  }

  /**
    The pixel CreateBitmap picks is the geometric one: in doubled coordinates
    (pixel (x, y) has its centre at (2x + 1, 2y + 1)), the source centre mapped
    by m and moved into the destination's bounds is the destination centre.
   */
  lemma CreateBitmapMapsCentres(src: Bitmap, m: AxisMatrix, x: nat, y: nat)
    requires src.Valid() && !m.swapAxes && x < src.width && y < src.height
    ensures var sx, sy := SourceIndex(m.negateX, x, src.width), SourceIndex(m.negateY, y, src.height);
            var mapped := MapPoint(m, 2 * sx + 1, 2 * sy + 1);
            0 <= sx < src.width && 0 <= sy < src.height &&
            mapped.0 + (if m.negateX then 2 * src.width else 0) == 2 * x + 1 &&
            mapped.1 + (if m.negateY then 2 * src.height else 0) == 2 * y + 1 &&
            CreateBitmap(src, m).pixels[y][x] == src.pixels[sy][sx]
  {
  }

  /** With the upright matrix, destination row y is source row height-1-y. */
  lemma UprightIsVerticalFlip(src: Bitmap, x: nat, y: nat)
    requires src.Valid() && x < src.width && y < src.height
    ensures !UprightMatrix().swapAxes
    ensures CreateBitmap(src, UprightMatrix()).pixels[y][x] == src.pixels[src.height - 1 - y][x]
  {
  }

  /** Turning a bitmap upright twice gives it back. */
  lemma {:induction false} UprightTwice(src: Bitmap)
    requires src.Valid()
    ensures !UprightMatrix().swapAxes
    ensures CreateBitmap(CreateBitmap(src, UprightMatrix()), UprightMatrix()) == src
  {
    var m := UprightMatrix();
    var once := CreateBitmap(src, m);
    var twice := CreateBitmap(once, m);
    forall y | 0 <= y < src.height
      ensures twice.pixels[y] == src.pixels[y]
    {
      forall x | 0 <= x < src.width
        ensures twice.pixels[y][x] == src.pixels[y][x]
      {
        UprightIsVerticalFlip(once, x, y);
        UprightIsVerticalFlip(src, x, src.height - 1 - y);
      }
    }
  }

  /**
    What getFrameBuffer hands out: reading the window back, copying it into a
    bitmap and turning that upright puts window pixel (x, height-1-y) at row y,
    so the top row of the window is the first row of the bitmap.
   */
  lemma UprightReadBack(colorBuffer: (int, int) -> Rgba, width: nat, height: nat, x: nat, y: nat)
    requires x < width && y < height
    ensures !UprightMatrix().swapAxes
    ensures CreateBitmap(CopyPixelsFromBuffer(WindowBytes(colorBuffer, width, height), width, height),
                         UprightMatrix()).pixels[y][x]
            == colorBuffer(x, height - 1 - y)
  {
    var copied := CopyPixelsFromBuffer(WindowBytes(colorBuffer, width, height), width, height);
    UprightIsVerticalFlip(copied, x, y);
    ReadBackPixel(colorBuffer, width, height, x, height - 1 - y);
  }

}
