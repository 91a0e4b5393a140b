/**
  The part of android.graphics.Matrix that getFrameBuffer uses: a rotation by
  a multiple of 90 degrees followed by a mirroring scale.  These matrices are
  the signed permutations of the axes, so they are represented by which axes
  they swap and negate rather than by their (floating-point) coefficients.
 */
module AndroidMatrix {

  /**
    (x, y) maps to (±u, ±v), where (u, v) is (y, x) when `swapAxes` and
    (x, y) otherwise, and each sign is minus when the flag is set.
   */
  datatype AxisMatrix = AxisMatrix(swapAxes: bool, negateX: bool, negateY: bool)

  function MapPoint(m: AxisMatrix, x: int, y: int): (int, int)
  {
    var u := if m.swapAxes then y else x;
    var v := if m.swapAxes then x else y;
    (if m.negateX then -u else u, if m.negateY then -v else v)
  }

  /**
    `setRotate(degrees)` for a multiple of 90 degrees: (x, y) maps to
    (x cos - y sin, x sin + y cos), which Android computes exactly for these
    angles; the contract gives the images of the two unit vectors.
   */
  function SetRotate(degrees: int): (m: AxisMatrix)
    requires degrees % 90 == 0
    ensures var quarter := degrees / 90 % 4;
            (quarter == 0 ==> MapPoint(m, 1, 0) == (1, 0) && MapPoint(m, 0, 1) == (0, 1)) &&
            (quarter == 1 ==> MapPoint(m, 1, 0) == (0, 1) && MapPoint(m, 0, 1) == (-1, 0)) &&
            (quarter == 2 ==> MapPoint(m, 1, 0) == (-1, 0) && MapPoint(m, 0, 1) == (0, -1)) &&
            (quarter == 3 ==> MapPoint(m, 1, 0) == (0, -1) && MapPoint(m, 0, 1) == (1, 0))
  {
    var quarter := degrees / 90 % 4;
    if quarter == 0 then AxisMatrix(false, false, false)
    else if quarter == 1 then AxisMatrix(true, true, false)
    else if quarter == 2 then AxisMatrix(false, true, true)
    else AxisMatrix(true, false, true)
  }

  /** `m.postScale(sx, sy)` for sx, sy in {1, -1}: the scale applies after m. */
  function PostScale(m: AxisMatrix, sx: int, sy: int): (scaled: AxisMatrix)
    requires (sx == 1 || sx == -1) && (sy == 1 || sy == -1)
    ensures forall x, y :: MapPoint(scaled, x, y) ==
              var (u, v) := MapPoint(m, x, y);
              (if sx == -1 then -u else u, if sy == -1 then -v else v)
  {
    AxisMatrix(m.swapAxes, m.negateX != (sx == -1), m.negateY != (sy == -1))
  }

  /**
    The matrix getFrameBuffer builds, `setRotate(180)` then
    `postScale(-1, 1)`: it maps (x, y) to (x, -y), a mirror in the x axis.
   */
  function UprightMatrix(): (m: AxisMatrix)
    ensures !m.swapAxes
    ensures forall x, y :: MapPoint(m, x, y) == (x, -y)
  {
    PostScale(SetRotate(180), -1, 1)
  }

}
