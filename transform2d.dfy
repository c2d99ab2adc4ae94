// The Week 1 linear-algebra helpers: 2x2 matrices acting on plane vectors,
// their product, and the transpose used as the inverse of a rotation. A
// rotation by an angle is given by its cosine `c` and sine `s`.
module Transform2D {

  datatype Vec2 = Vec2(x: real, y: real)

  /** The matrix `((m00, m01), (m10, m11))`, row by row. */
  datatype Mat2 = Mat2(m00: real, m01: real, m10: real, m11: real)

  function Add(u: Vec2, v: Vec2): Vec2 { Vec2(u.x + v.x, u.y + v.y) }

  function ScaleVec(k: real, v: Vec2): Vec2 { Vec2(k * v.x, k * v.y) }

  function Col0(m: Mat2): Vec2 { Vec2(m.m00, m.m10) }
  function Col1(m: Mat2): Vec2 { Vec2(m.m01, m.m11) }
  function Row0(m: Mat2): Vec2 { Vec2(m.m00, m.m01) }
  function Row1(m: Mat2): Vec2 { Vec2(m.m10, m.m11) }

  const IDENTITY: Mat2 := Mat2(1.0, 0.0, 0.0, 1.0)

  /** The scripts' scale matrix `((2, 0), (0, 1))`. */
  const SCALE: Mat2 := Mat2(2.0, 0.0, 0.0, 1.0)

  /** `((cos, -sin), (sin, cos))` for an angle with cosine `c` and sine `s`. */
  function Rotation(c: real, s: real): Mat2
  {
    Mat2(c, -s, s, c)
  }

  /** `apply_transform(matrix, vector)`: the matrix-vector product. */
  function ApplyTransform(m: Mat2, v: Vec2): Vec2
  {
    Vec2(m.m00 * v.x + m.m01 * v.y, m.m10 * v.x + m.m11 * v.y)
  }

  /** `multiply_matrices(A, B)`: the matrix product, entry by entry. */
  function MultiplyMatrices(a: Mat2, b: Mat2): Mat2
  {
    Mat2(a.m00 * b.m00 + a.m01 * b.m10, a.m00 * b.m01 + a.m01 * b.m11,
         a.m10 * b.m00 + a.m11 * b.m10, a.m10 * b.m01 + a.m11 * b.m11)
  }

  /** `inverse_rotation(matrix)`: the transpose, whose rows are the columns of `m`. */
  function InverseRotation(m: Mat2): (t: Mat2)
    ensures Row0(t) == Col0(m) && Row1(t) == Col1(m)
  {
    Mat2(m.m00, m.m10, m.m01, m.m11)
  }

  /** The image of `v` is `v.x` times the first column plus `v.y` times the
      second; the basis vectors go to the columns. */
  lemma ColumnView(m: Mat2, v: Vec2)
    ensures ApplyTransform(m, v) == Add(ScaleVec(v.x, Col0(m)), ScaleVec(v.y, Col1(m)))
    ensures ApplyTransform(m, Vec2(1.0, 0.0)) == Col0(m) && ApplyTransform(m, Vec2(0.0, 1.0)) == Col1(m)
  {
  }

  /** Each column of `a * b` is `a` applied to the matching column of `b`. */
  lemma ProductColumns(a: Mat2, b: Mat2)
    ensures Col0(MultiplyMatrices(a, b)) == ApplyTransform(a, Col0(b))
    ensures Col1(MultiplyMatrices(a, b)) == ApplyTransform(a, Col1(b))
  {
  }

  /** Applying a product is applying its factors right to left. */
  lemma Composition(a: Mat2, b: Mat2, v: Vec2)
    ensures ApplyTransform(MultiplyMatrices(a, b), v) == ApplyTransform(a, ApplyTransform(b, v))
  {
    ProductRow(a.m00, a.m01, b, v);
    ProductRow(a.m10, a.m11, b, v);
  }

  /** One row of the composition law: the row `(p, q)` of `a` times `b`, applied
      to `v`, equals that row applied to `b v`. */
  lemma ProductRow(p: real, q: real, b: Mat2, v: Vec2)
    ensures (p * b.m00 + q * b.m10) * v.x + (p * b.m01 + q * b.m11) * v.y ==
            p * (b.m00 * v.x + b.m01 * v.y) + q * (b.m10 * v.x + b.m11 * v.y)
  {
  }

  /** `apply_transform` is linear: it preserves sums and scalar multiples. */
  lemma Linearity(m: Mat2, u: Vec2, v: Vec2, k: real)
    ensures ApplyTransform(m, Add(u, v)) == Add(ApplyTransform(m, u), ApplyTransform(m, v))
    ensures ApplyTransform(m, ScaleVec(k, v)) == ScaleVec(k, ApplyTransform(m, v))
  {
    assert m.m00 * (k * v.x) + m.m01 * (k * v.y) == k * (m.m00 * v.x + m.m01 * v.y);
    assert m.m10 * (k * v.x) + m.m11 * (k * v.y) == k * (m.m10 * v.x + m.m11 * v.y);
  }

  /** Transposing twice gives back the matrix. */
  lemma TransposeInvolution(m: Mat2)
    ensures InverseRotation(InverseRotation(m)) == m
  {
  }

  /** The transpose of a rotation is the rotation by the opposite angle. */
  lemma RotationTranspose(c: real, s: real)
    ensures InverseRotation(Rotation(c, s)) == Rotation(c, -s)
  {
  }

  /** For a genuine rotation (`c*c + s*s == 1`) the transpose undoes it on either
      side: both products are the identity. */
  lemma RotationOrthonormal(c: real, s: real)
    requires c * c + s * s == 1.0
    ensures MultiplyMatrices(InverseRotation(Rotation(c, s)), Rotation(c, s)) == IDENTITY
    ensures MultiplyMatrices(Rotation(c, s), InverseRotation(Rotation(c, s))) == IDENTITY
  {
  }

  /** Rotating a point and then applying `inverse_rotation` of the rotation gives
      the point back. */
  lemma Recovery(c: real, s: real, v: Vec2)
    requires c * c + s * s == 1.0
    ensures ApplyTransform(InverseRotation(Rotation(c, s)), ApplyTransform(Rotation(c, s), v)) == v
  {
    var r := Rotation(c, s);
    Composition(InverseRotation(r), r, v);
    RotationOrthonormal(c, s);
  }

  /** The scale matrix doubles `x` and keeps `y`: `(1, 1)` goes to `(2, 1)`. */
  lemma ScaleExample(v: Vec2)
    ensures ApplyTransform(SCALE, v) == Vec2(2.0 * v.x, v.y)
    ensures ApplyTransform(SCALE, Vec2(1.0, 1.0)) == Vec2(2.0, 1.0)
  {
  }

  /** With exact quarter-turn entries (`c = 0`, `s = 1`) the rotation takes `(1, 0)`
      to `(0, 1)`, and in general `(x, y)` to `(-y, x)`. */
  lemma QuarterTurnExample(v: Vec2)
    ensures ApplyTransform(Rotation(0.0, 1.0), v) == Vec2(-v.y, v.x)
    ensures ApplyTransform(Rotation(0.0, 1.0), Vec2(1.0, 0.0)) == Vec2(0.0, 1.0)
  {
  }

  /** Order matters: `scale * rotation` sends `(1, 1)` to `(-2, 1)` and
      `rotation * scale` sends it to `(-1, 2)`, so the two products differ. */
  lemma OrderMatters()
    ensures ApplyTransform(MultiplyMatrices(SCALE, Rotation(0.0, 1.0)), Vec2(1.0, 1.0)) == Vec2(-2.0, 1.0)
    ensures ApplyTransform(MultiplyMatrices(Rotation(0.0, 1.0), SCALE), Vec2(1.0, 1.0)) == Vec2(-1.0, 2.0)
    ensures MultiplyMatrices(SCALE, Rotation(0.0, 1.0)) != MultiplyMatrices(Rotation(0.0, 1.0), SCALE)
  {
    assert MultiplyMatrices(SCALE, Rotation(0.0, 1.0)) == Mat2(0.0, -2.0, 1.0, 0.0);
    assert MultiplyMatrices(Rotation(0.0, 1.0), SCALE) == Mat2(0.0, -1.0, 2.0, 0.0);
  }
}
