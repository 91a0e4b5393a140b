/**
  GLUtils.Matrix.setRotateEulerM, the replacement for Android's
  android.opengl.Matrix.setRotateEulerM (whose result is wrong for rotations
  about the Y axis).  The sines and cosines of the three angles are taken as
  given real numbers: converting degrees to radians and evaluating sin and
  cos in float arithmetic is not part of the model.
 */
module GLMatrix {

  /** A 3 × 3 matrix, row by row. */
  datatype Mat3 = Mat3(
    m00: real, m01: real, m02: real,
    m10: real, m11: real, m12: real,
    m20: real, m21: real, m22: real)

  function Identity(): Mat3
  {
    Mat3(1.0, 0.0, 0.0, 0.0, 1.0, 0.0, 0.0, 0.0, 1.0)
  }

  /** x0 * y0 + x1 * y1 + x2 * y2. */
  function Dot(x0: real, x1: real, x2: real, y0: real, y1: real, y2: real): real
  {
    x0 * y0 + x1 * y1 + x2 * y2
  }

  function Mul(a: Mat3, b: Mat3): Mat3
  {
    Mat3(
      Dot(a.m00, a.m01, a.m02, b.m00, b.m10, b.m20),
      Dot(a.m00, a.m01, a.m02, b.m01, b.m11, b.m21),
      Dot(a.m00, a.m01, a.m02, b.m02, b.m12, b.m22),
      Dot(a.m10, a.m11, a.m12, b.m00, b.m10, b.m20),
      Dot(a.m10, a.m11, a.m12, b.m01, b.m11, b.m21),
      Dot(a.m10, a.m11, a.m12, b.m02, b.m12, b.m22),
      Dot(a.m20, a.m21, a.m22, b.m00, b.m10, b.m20),
      Dot(a.m20, a.m21, a.m22, b.m01, b.m11, b.m21),
      Dot(a.m20, a.m21, a.m22, b.m02, b.m12, b.m22))
  }

  function Transpose(a: Mat3): Mat3
  {
    Mat3(a.m00, a.m10, a.m20, a.m01, a.m11, a.m21, a.m02, a.m12, a.m22)
  }

  /** Orthonormal: its transpose is its inverse (a rotation, or a rotation followed by a reflection). */
  ghost predicate Orthonormal(a: Mat3)
  {
    Mul(a, Transpose(a)) == Identity()
  }

  /** The determinant of the 2 × 2 matrix with rows (p, q) and (r, t). */
  function Minor(p: real, q: real, r: real, t: real): real
  {
    p * t - q * r
  }

  /** The determinant of the 3 × 3 matrix with the given rows, expanded along the first row. */
  function Det3(a00: real, a01: real, a02: real, a10: real, a11: real, a12: real, a20: real, a21: real, a22: real): real
  {
    a00 * Minor(a11, a12, a21, a22) - a01 * Minor(a10, a12, a20, a22) + a02 * Minor(a10, a11, a20, a21)
  }

  /** The determinant; an orthonormal matrix is a proper rotation when it is 1. */
  function Det(a: Mat3): real
  {
    Det3(a.m00, a.m01, a.m02, a.m10, a.m11, a.m12, a.m20, a.m21, a.m22)
  }

  /** A sine and a cosine of one angle. */
  ghost predicate OnUnitCircle(s: real, c: real)
  {
    s * s + c * c == 1.0
  }

  /** Rotations about the X, Y and Z axes by the angle with sine s and cosine c. */
  function RotateX(s: real, c: real): Mat3
  {
    Mat3(1.0, 0.0, 0.0, 0.0, c, -s, 0.0, s, c)
  }

  function RotateY(s: real, c: real): Mat3
  {
    Mat3(c, 0.0, s, 0.0, 1.0, 0.0, -s, 0.0, c)
  }

  function RotateZ(s: real, c: real): Mat3
  {
    Mat3(c, -s, 0.0, s, c, 0.0, 0.0, 0.0, 1.0)
  }

  /**
    The 16 entries of the 4 × 4 matrix with `a` in the upper left and no
    translation, listed row by row: entry 4 * i + j is a's (i, j).
    android.opengl.Matrix reads an array column by column, so to it these
    entries are the transpose of `a`.
   */
  function Homogeneous(a: Mat3): (entries: seq<real>)
    ensures |entries| == 16
    ensures entries[3] == entries[7] == entries[11] == 0.0
    ensures entries[12] == entries[13] == entries[14] == 0.0 && entries[15] == 1.0
  {
    [a.m00, a.m01, a.m02, 0.0,
     a.m10, a.m11, a.m12, 0.0,
     a.m20, a.m21, a.m22, 0.0,
     0.0, 0.0, 0.0, 1.0]
  }

  /**
    The product Rx · Ry · Rz, in the row-by-row reading of Homogeneous.
    Applied to a column vector it rotates about Z first, then Y, then X.
    Read column by column, as android.opengl.Matrix does, the array holds
    the transpose Rzᵀ · Ryᵀ · Rxᵀ.
   */
  function EulerRotation(sx: real, sy: real, sz: real, cx: real, cy: real, cz: real): Mat3
  {
    Mul(Mul(RotateX(sx, cx), RotateY(sy, cy)), RotateZ(sz, cz))
  }

  /**
    `setRotateEulerM(rm, rmOffset, x, y, z)` with the sines and cosines of the
    angles given: writes the 16 entries from rmOffset on and nothing else.
   */
  method SetRotateEulerM(rm: array<real>, rmOffset: nat, sx: real, sy: real, sz: real, cx: real, cy: real, cz: real)
    requires rmOffset + 16 <= rm.Length
    modifies rm
    ensures rm[rmOffset..rmOffset + 16] == Homogeneous(EulerRotation(sx, sy, sz, cx, cy, cz))
    ensures forall j :: 0 <= j < rm.Length && !(rmOffset <= j < rmOffset + 16) ==> rm[j] == old(rm[j])
  {
    var cxsy := cx * sy;
    var sxsy := sx * sy;

    WriteRow(rm, rmOffset + 0, cy * cz, -cy * sz, sy, 0.0);
    WriteRow(rm, rmOffset + 4, sxsy * cz + cx * sz, -sxsy * sz + cx * cz, -sx * cy, 0.0);
    WriteRow(rm, rmOffset + 8, -cxsy * cz + sx * sz, cxsy * sz + sx * cz, cx * cy, 0.0);
    WriteRow(rm, rmOffset + 12, 0.0, 0.0, 0.0, 1.0);

    EulerRotationEntries(sx, sy, sz, cx, cy, cz);
    var expected := Homogeneous(EulerRotation(sx, sy, sz, cx, cy, cz));
    forall k | 0 <= k < 16
      ensures rm[rmOffset..rmOffset + 16][k] == expected[k]
    {
    }
  }

  /** Four consecutive writes `rm[at] = a; rm[at + 1] = b; ...`, one matrix row. */
  method WriteRow(rm: array<real>, at: nat, a: real, b: real, c: real, d: real)
    requires at + 4 <= rm.Length
    modifies rm
    ensures rm[at] == a && rm[at + 1] == b && rm[at + 2] == c && rm[at + 3] == d
    ensures forall j :: 0 <= j < rm.Length && !(at <= j < at + 4) ==> rm[j] == old(rm[j])
  {
    rm[at] := a;
    rm[at + 1] := b;
    rm[at + 2] := c;
    rm[at + 3] := d;
  }

  /** The coefficients setRotateEulerM writes are those of Rx · Ry · Rz. */
  lemma EulerRotationEntries(sx: real, sy: real, sz: real, cx: real, cy: real, cz: real)
    ensures EulerRotation(sx, sy, sz, cx, cy, cz) ==
      Mat3(cy * cz, -cy * sz, sy,
           (sx * sy) * cz + cx * sz, -(sx * sy) * sz + cx * cz, -sx * cy,
           -(cx * sy) * cz + sx * sz, (cx * sy) * sz + sx * cz, cx * cy)
  {
  }

  /** All angles zero gives the identity. */
  lemma ZeroAnglesGiveIdentity()
    ensures Homogeneous(EulerRotation(0.0, 0.0, 0.0, 1.0, 1.0, 1.0)) == Homogeneous(Identity())
  {
  }

  /**
    A rotation about the Y axis alone gives exactly Ry, with the sine in the
    first row and its negation in the third (the case Android's own routine
    gets wrong).
   */
  lemma YAxisAloneGivesRotateY(sy: real, cy: real)
    ensures EulerRotation(0.0, sy, 0.0, 1.0, cy, 1.0) == RotateY(sy, cy)
  {
  }

  lemma {:induction false} TransposeOfProduct(a: Mat3, b: Mat3)
    ensures Transpose(Mul(a, b)) == Mul(Transpose(b), Transpose(a))
  {
  }

  /** One entry of (a · b) · c against a · (b · c): row (r0, r1, r2) of a, column (k0, k1, k2) of c. */
  lemma EntryAssociative(r0: real, r1: real, r2: real, b: Mat3, k0: real, k1: real, k2: real)
    ensures Dot(Dot(r0, r1, r2, b.m00, b.m10, b.m20),
                Dot(r0, r1, r2, b.m01, b.m11, b.m21),
                Dot(r0, r1, r2, b.m02, b.m12, b.m22), k0, k1, k2)
         == Dot(r0, r1, r2,
                Dot(b.m00, b.m01, b.m02, k0, k1, k2),
                Dot(b.m10, b.m11, b.m12, k0, k1, k2),
                Dot(b.m20, b.m21, b.m22, k0, k1, k2))
  {
  }

  lemma {:induction false} MulAssociative(a: Mat3, b: Mat3, c: Mat3)
    ensures Mul(Mul(a, b), c) == Mul(a, Mul(b, c))
  {
    EntryAssociative(a.m00, a.m01, a.m02, b, c.m00, c.m10, c.m20);
    EntryAssociative(a.m00, a.m01, a.m02, b, c.m01, c.m11, c.m21);
    EntryAssociative(a.m00, a.m01, a.m02, b, c.m02, c.m12, c.m22);
    EntryAssociative(a.m10, a.m11, a.m12, b, c.m00, c.m10, c.m20);
    EntryAssociative(a.m10, a.m11, a.m12, b, c.m01, c.m11, c.m21);
    EntryAssociative(a.m10, a.m11, a.m12, b, c.m02, c.m12, c.m22);
    EntryAssociative(a.m20, a.m21, a.m22, b, c.m00, c.m10, c.m20);
    EntryAssociative(a.m20, a.m21, a.m22, b, c.m01, c.m11, c.m21);
    EntryAssociative(a.m20, a.m21, a.m22, b, c.m02, c.m12, c.m22);
  }

  /** A product of orthonormal matrices is orthonormal. */
  lemma {:induction false} ProductOfOrthonormal(a: Mat3, b: Mat3)
    requires Orthonormal(a) && Orthonormal(b)
    ensures Orthonormal(Mul(a, b))
  {
    var at, bt := Transpose(a), Transpose(b);
    TransposeOfProduct(a, b);
    MulAssociative(a, b, Mul(bt, at));
    MulAssociative(b, bt, at);
    assert Mul(Identity(), at) == at;
  }

  /**
    Whenever each sine and cosine pair belongs to one angle, the matrix is
    orthonormal, so it preserves lengths and angles.
   */
  lemma {:induction false} EulerRotationIsOrthonormal(sx: real, sy: real, sz: real, cx: real, cy: real, cz: real)
    requires OnUnitCircle(sx, cx) && OnUnitCircle(sy, cy) && OnUnitCircle(sz, cz)
    ensures Orthonormal(EulerRotation(sx, sy, sz, cx, cy, cz))
  {
    assert Orthonormal(RotateX(sx, cx));
    assert Orthonormal(RotateY(sy, cy));
    assert Orthonormal(RotateZ(sz, cz));
    ProductOfOrthonormal(RotateX(sx, cx), RotateY(sy, cy));
    ProductOfOrthonormal(Mul(RotateX(sx, cx), RotateY(sy, cy)), RotateZ(sz, cz));
  }

  /**
    Rotating the two columns of a 2 × 2 minor by an angle with sine s and
    cosine c scales it by k = c² + s²: the rows (x0, x1) and (y0, y1) are the
    rows (p0, p1) and (q0, q1) rotated.
   */
  lemma MinorRotates(x0: real, x1: real, y0: real, y1: real, p0: real, p1: real, q0: real, q1: real,
                     s: real, c: real, k: real)
    requires x0 == c * p0 - s * p1 && x1 == s * p0 + c * p1
    requires y0 == c * q0 - s * q1 && y1 == s * q0 + c * q1
    requires k == c * c + s * s
    ensures Minor(x0, x1, y0, y1) == k * Minor(p0, p1, q0, q1)
  {
  }

  /**
    Two cofactor expansions along the same column, with equal column entries
    (x0, x1, x2), every minor of the first k times the matching minor of the
    second: the first determinant is k times the second.
   */
  lemma CofactorsScale(d: real, x0: real, x1: real, x2: real, n0: real, n1: real, n2: real,
                       e: real, y0: real, y1: real, y2: real, k: real)
    requires d == x0 * n0 + x1 * n1 + x2 * n2
    requires e == x0 * y0 + x1 * y1 + x2 * y2
    requires n0 == k * y0 && n1 == k * y1 && n2 == k * y2
    ensures d == k * e
  {
  }

  /** The determinant expanded along the second column. */
  lemma Det3Column1(a00: real, a01: real, a02: real, a10: real, a11: real, a12: real, a20: real, a21: real, a22: real)
    ensures Det3(a00, a01, a02, a10, a11, a12, a20, a21, a22)
         == (-a01) * Minor(a10, a12, a20, a22) + a11 * Minor(a00, a02, a20, a22) + (-a21) * Minor(a00, a02, a10, a12)
  {
  }

  /** The determinant expanded along the third column. */
  lemma Det3Column2(a00: real, a01: real, a02: real, a10: real, a11: real, a12: real, a20: real, a21: real, a22: real)
    ensures Det3(a00, a01, a02, a10, a11, a12, a20, a21, a22)
         == a02 * Minor(a10, a11, a20, a21) + (-a12) * Minor(a00, a01, a20, a21) + a22 * Minor(a00, a01, a10, a11)
  {
  }

  /** Rotating the first and third columns scales the determinant by c² + s². */
  lemma Det3RotatesColumns02(b00: real, b02: real, b10: real, b12: real, b20: real, b22: real,
                             a00: real, a01: real, a02: real, a10: real, a11: real, a12: real,
                             a20: real, a21: real, a22: real, s: real, c: real, k: real)
    requires b00 == c * a00 - s * a02 && b02 == s * a00 + c * a02
    requires b10 == c * a10 - s * a12 && b12 == s * a10 + c * a12
    requires b20 == c * a20 - s * a22 && b22 == s * a20 + c * a22
    requires k == c * c + s * s
    ensures Det3(b00, a01, b02, b10, a11, b12, b20, a21, b22) == k * Det3(a00, a01, a02, a10, a11, a12, a20, a21, a22)
  {
    MinorRotates(b10, b12, b20, b22, a10, a12, a20, a22, s, c, k);
    MinorRotates(b00, b02, b20, b22, a00, a02, a20, a22, s, c, k);
    MinorRotates(b00, b02, b10, b12, a00, a02, a10, a12, s, c, k);
    Det3Column1(b00, a01, b02, b10, a11, b12, b20, a21, b22);
    Det3Column1(a00, a01, a02, a10, a11, a12, a20, a21, a22);
    CofactorsScale(Det3(b00, a01, b02, b10, a11, b12, b20, a21, b22), -a01, a11, -a21,
      Minor(b10, b12, b20, b22), Minor(b00, b02, b20, b22), Minor(b00, b02, b10, b12),
      Det3(a00, a01, a02, a10, a11, a12, a20, a21, a22),
      Minor(a10, a12, a20, a22), Minor(a00, a02, a20, a22), Minor(a00, a02, a10, a12), k);
  }

  /** Rotating the first and second columns scales the determinant by c² + s². */
  lemma Det3RotatesColumns01(b00: real, b01: real, b10: real, b11: real, b20: real, b21: real,
                             a00: real, a01: real, a02: real, a10: real, a11: real, a12: real,
                             a20: real, a21: real, a22: real, s: real, c: real, k: real)
    requires b00 == c * a00 - s * a01 && b01 == s * a00 + c * a01
    requires b10 == c * a10 - s * a11 && b11 == s * a10 + c * a11
    requires b20 == c * a20 - s * a21 && b21 == s * a20 + c * a21
    requires k == c * c + s * s
    ensures Det3(b00, b01, a02, b10, b11, a12, b20, b21, a22) == k * Det3(a00, a01, a02, a10, a11, a12, a20, a21, a22)
  {
    MinorRotates(b10, b11, b20, b21, a10, a11, a20, a21, s, c, k);
    MinorRotates(b00, b01, b20, b21, a00, a01, a20, a21, s, c, k);
    MinorRotates(b00, b01, b10, b11, a00, a01, a10, a11, s, c, k);
    Det3Column2(b00, b01, a02, b10, b11, a12, b20, b21, a22);
    Det3Column2(a00, a01, a02, a10, a11, a12, a20, a21, a22);
    CofactorsScale(Det3(b00, b01, a02, b10, b11, a12, b20, b21, a22), a02, -a12, a22,
      Minor(b10, b11, b20, b21), Minor(b00, b01, b20, b21), Minor(b00, b01, b10, b11),
      Det3(a00, a01, a02, a10, a11, a12, a20, a21, a22),
      Minor(a10, a11, a20, a21), Minor(a00, a01, a20, a21), Minor(a00, a01, a10, a11), k);
  }

  /** a · Ry mixes the first and third columns of a and keeps the second. */
  lemma MulRotateYEntries(a: Mat3, s: real, c: real)
    ensures var m := Mul(a, RotateY(s, c));
      m.m00 == c * a.m00 - s * a.m02 && m.m02 == s * a.m00 + c * a.m02 &&
      m.m10 == c * a.m10 - s * a.m12 && m.m12 == s * a.m10 + c * a.m12 &&
      m.m20 == c * a.m20 - s * a.m22 && m.m22 == s * a.m20 + c * a.m22 &&
      m.m01 == a.m01 && m.m11 == a.m11 && m.m21 == a.m21
  {
  }

  /** a · Rz mixes the first and second columns of a and keeps the third. */
  lemma MulRotateZEntries(a: Mat3, s: real, c: real)
    ensures var m := Mul(a, RotateZ(s, c));
      m.m00 == c * a.m00 - -s * a.m01 && m.m01 == -s * a.m00 + c * a.m01 &&
      m.m10 == c * a.m10 - -s * a.m11 && m.m11 == -s * a.m10 + c * a.m11 &&
      m.m20 == c * a.m20 - -s * a.m21 && m.m21 == -s * a.m20 + c * a.m21 &&
      m.m02 == a.m02 && m.m12 == a.m12 && m.m22 == a.m22
  {
  }

  /** Multiplying on the right by Ry multiplies the determinant by c² + s². */
  lemma {:induction false} DetMulRotateY(a: Mat3, s: real, c: real)
    ensures Det(Mul(a, RotateY(s, c))) == (c * c + s * s) * Det(a)
  {
    var m := Mul(a, RotateY(s, c));
    MulRotateYEntries(a, s, c);
    Det3RotatesColumns02(m.m00, m.m02, m.m10, m.m12, m.m20, m.m22,
      a.m00, a.m01, a.m02, a.m10, a.m11, a.m12, a.m20, a.m21, a.m22, s, c, c * c + s * s);
  }

  /** Multiplying on the right by Rz multiplies the determinant by c² + s². */
  lemma {:induction false} DetMulRotateZ(a: Mat3, s: real, c: real)
    ensures Det(Mul(a, RotateZ(s, c))) == (c * c + s * s) * Det(a)
  {
    var m := Mul(a, RotateZ(s, c));
    MulRotateZEntries(a, s, c);
    assert c * c + s * s == c * c + -s * -s;
    Det3RotatesColumns01(m.m00, m.m01, m.m10, m.m11, m.m20, m.m21,
      a.m00, a.m01, a.m02, a.m10, a.m11, a.m12, a.m20, a.m21, a.m22, -s, c, c * c + s * s);
  }

  /**
    With each sine and cosine pair on the unit circle the determinant is 1,
    so the written matrix is a proper rotation and never a reflection.
   */
  lemma {:induction false} EulerRotationIsProper(sx: real, sy: real, sz: real, cx: real, cy: real, cz: real)
    requires OnUnitCircle(sx, cx) && OnUnitCircle(sy, cy) && OnUnitCircle(sz, cz)
    ensures Orthonormal(EulerRotation(sx, sy, sz, cx, cy, cz))
    ensures Det(EulerRotation(sx, sy, sz, cx, cy, cz)) == 1.0
  {
    EulerRotationIsOrthonormal(sx, sy, sz, cx, cy, cz);
    var xy := Mul(RotateX(sx, cx), RotateY(sy, cy));
    assert Det(RotateX(sx, cx)) == 1.0;
    DetMulRotateY(RotateX(sx, cx), sy, cy);
    DetMulRotateZ(xy, sz, cz);
  }

}
