/**
  Pixel data as GLUtils moves it around: the bytes `glReadPixels` packs for
  GL_RGBA / GL_UNSIGNED_BYTE, an ARGB_8888 bitmap filled from those bytes, and
  the android.graphics.Matrix / Bitmap.createBitmap pair that turns the
  bitmap upright.
 */
module Pixels {

  /** One pixel, one byte per channel, in the order R, G, B, A. */
  datatype Rgba = Rgba(r: bv8, g: bv8, b: bv8, a: bv8)

  /** The four bytes of a pixel in memory order. */
  function Bytes(p: Rgba): seq<bv8>
  {
    [p.r, p.g, p.b, p.a]
  }

  // ---------------------------------------------------------------------------
  // Row-major byte layout
  // ---------------------------------------------------------------------------

  function Flatten<T>(rows: seq<seq<T>>): seq<T>
  {
    if rows == [] then [] else rows[0] + Flatten(rows[1..])
  }

  ghost predicate Uniform<T>(rows: seq<seq<T>>, len: nat)
  {
    forall i :: 0 <= i < |rows| ==> |rows[i]| == len
  }

  lemma {:induction false} FlattenLength<T>(rows: seq<seq<T>>, len: nat)
    requires Uniform(rows, len)
    ensures |Flatten(rows)| == |rows| * len
  {
    if rows != [] {
      FlattenLength(rows[1..], len);
      assert |rows| * len == len + (|rows| - 1) * len;
    }
  }

  /** Element k of row r sits at r * len + k once the rows are laid end to end. */
  lemma {:induction false} FlattenAt<T>(rows: seq<seq<T>>, len: nat, r: nat, k: nat)
    requires Uniform(rows, len)
    requires r < |rows| && k < len
    ensures r * len + k < |Flatten(rows)|
    ensures Flatten(rows)[r * len + k] == rows[r][k]
  {
    var rest := Flatten(rows[1..]);
    assert Flatten(rows) == rows[0] + rest;
    if r == 0 {
      assert r * len + k == k;
    } else {
      FlattenAt(rows[1..], len, r - 1, k);
      assert r * len + k == len + ((r - 1) * len + k);
    }
  }

  /** Window row y, pixels x = 0 .. width-1, as glReadPixels packs them. */
  function RowBytes(colorBuffer: (int, int) -> Rgba, y: int, width: nat): (row: seq<bv8>)
    ensures |row| == width * 4
  {
    var pixels := seq(width, x => Bytes(colorBuffer(x, y)));
    assert Uniform(pixels, 4) by {
      forall i | 0 <= i < width ensures |pixels[i]| == 4 {
        assert pixels[i] == Bytes(colorBuffer(i, y));
      }
    }
    FlattenLength(pixels, 4);
    Flatten(pixels)
  }

  /**
    What `glReadPixels(0, 0, width, height, GL_RGBA, GL_UNSIGNED_BYTE, buf)`
    stores: window rows from the bottom (y = 0) up, four bytes per pixel, no
    row padding (a row of RGBA bytes always meets the default pack alignment
    of 4).  `colorBuffer(x, y)` is the pixel at window coordinates (x, y),
    origin at the bottom left.
   */
  function WindowBytes(colorBuffer: (int, int) -> Rgba, width: nat, height: nat): (bytes: seq<bv8>)
    ensures |bytes| == width * height * 4
  {
    var rows := seq(height, y => RowBytes(colorBuffer, y, width));
    FlattenLength(rows, width * 4);
    assert height * (width * 4) == width * height * 4;
    Flatten(rows)
  }

  /** The offset of pixel (x, y) in a width * height * 4 byte buffer. */
  function Offset(x: nat, y: nat, width: nat): nat
  {
    (y * width + x) * 4
  }

  lemma OffsetInBounds(x: nat, y: nat, width: nat, height: nat)
    requires x < width && y < height
    ensures Offset(x, y, width) + 4 <= width * height * 4
  {
    assert y * width + x + 1 <= (y + 1) * width <= height * width;
  }

  /** The offset of pixel (x, y) is y rows of width * 4 bytes, then x pixels of 4 bytes. */
  lemma OffsetSplits(x: nat, y: nat, width: nat, c: nat)
    ensures Offset(x, y, width) + c == y * (width * 4) + (x * 4 + c)
  {
    calc {
      Offset(x, y, width) + c;
    ==
      (y * width + x) * 4 + c;
    == { assert (y * width + x) * 4 == (y * width) * 4 + x * 4; }
      (y * width) * 4 + (x * 4 + c);
    == { assert (y * width) * 4 == y * (width * 4); }
      y * (width * 4) + (x * 4 + c);
    }
  }

  /** Channel c of window pixel (x, y) is byte Offset(x, y) + c of the read-back. */
  lemma {:induction false} WindowBytesAt(colorBuffer: (int, int) -> Rgba, width: nat, height: nat, x: nat, y: nat, c: nat)
    requires x < width && y < height && c < 4
    ensures Offset(x, y, width) + c < |WindowBytes(colorBuffer, width, height)|
    ensures WindowBytes(colorBuffer, width, height)[Offset(x, y, width) + c] == Bytes(colorBuffer(x, y))[c]
  {
    var pixels := seq(width, i => Bytes(colorBuffer(i, y)));
    var rows := seq(height, j => RowBytes(colorBuffer, j, width));
    assert Uniform(pixels, 4) by {
      forall i | 0 <= i < width ensures |pixels[i]| == 4 {
        assert pixels[i] == Bytes(colorBuffer(i, y));
      }
    }
    FlattenAt(pixels, 4, x, c);
    FlattenAt(rows, width * 4, y, x * 4 + c);
    OffsetSplits(x, y, width, c);
  }

  // ---------------------------------------------------------------------------
  // Bitmaps
  // ---------------------------------------------------------------------------

  /** An ARGB_8888 bitmap; `pixels[y][x]` is the pixel in row y (top row 0). */
  datatype Bitmap = Bitmap(width: nat, height: nat, pixels: seq<seq<Rgba>>)
  {
    ghost predicate Valid()
    {
      |pixels| == height && forall y :: 0 <= y < height ==> |pixels[y]| == width
    }
  }

  function PixelAtOffset(buffer: seq<bv8>, i: nat): Rgba
    requires i + 4 <= |buffer|
  {
    Rgba(buffer[i], buffer[i + 1], buffer[i + 2], buffer[i + 3])
  }

  /**
    `Bitmap.createBitmap(width, height, ARGB_8888)` followed by
    `copyPixelsFromBuffer(buffer)`: the bytes are copied unconverted, row 0
    first, so bitmap row y holds buffer row y.
   */
  function CopyPixelsFromBuffer(buffer: seq<bv8>, width: nat, height: nat): (bmp: Bitmap)
    requires |buffer| == width * height * 4
    ensures bmp.Valid() && bmp.width == width && bmp.height == height
  {
    Bitmap(width, height,
      seq(height, y requires 0 <= y < height =>
        seq(width, x requires 0 <= x < width =>
          OffsetInBounds(x, y, width, height);
          PixelAtOffset(buffer, Offset(x, y, width)))))
  }

  /**
    Reading the window back and copying the bytes into a bitmap puts window
    pixel (x, y) at bitmap row y: the bitmap is upside down, as GL counts rows
    from the bottom.
   */
  lemma ReadBackPixel(colorBuffer: (int, int) -> Rgba, width: nat, height: nat, x: nat, y: nat)
    requires x < width && y < height
    ensures CopyPixelsFromBuffer(WindowBytes(colorBuffer, width, height), width, height).pixels[y][x]
            == colorBuffer(x, y)
  {
    WindowBytesAt(colorBuffer, width, height, x, y, 0);
    WindowBytesAt(colorBuffer, width, height, x, y, 1);
    WindowBytesAt(colorBuffer, width, height, x, y, 2);
    WindowBytesAt(colorBuffer, width, height, x, y, 3);
  }

}
