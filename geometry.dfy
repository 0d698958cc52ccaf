/**
 * Value types of the 2D graphics backend that the compositor consumes: rectangles,
 * paths and affine matrices. Single-precision floats are modelled as reals.
 */
module Geometry {
  import opened Wrappers

  /** An axis-aligned rectangle given by its four edges (tgfx::Rect). */
  datatype Rect = Rect(left: real, top: real, right: real, bottom: real) {
    function X(): real { left }
    function Y(): real { top }
    function Width(): real { right - left }
    function Height(): real { bottom - top }
  }

  /**
   * `ceilf` followed by a cast to `int`: the least integer not below `x`.
   * The cast cannot lose anything once the value is integral; overflow of the
   * 32-bit cast is not modelled.
   */
  function Ceil(x: real): (n: int)
    ensures n as real - 1.0 < x <= n as real
  {
    -((-x).Floor)
  }

  /**
   * A vector path, kept abstract: its bounds, whether it is closed, and whether
   * it is filled inside-out (the complement of its interior).
   */
  datatype Path = Path(bounds: Rect, closed: bool, inverseFill: bool)

  /** Switches between filling the interior and filling the complement; the outline is untouched. */
  function ToggleInverseFillType(p: Path): Path
  {
    p.(inverseFill := !p.inverseFill)
  }

  /**
   * An affine matrix
   *   | scaleX skewX  transX |
   *   | skewY  scaleY transY |
   * (the perspective row of tgfx::Matrix is always 0 0 1 for the matrices used here).
   */
  datatype Matrix = Matrix(scaleX: real, skewX: real, transX: real,
                           skewY: real, scaleY: real, transY: real)

  function Identity(): Matrix
  {
    Matrix(1.0, 0.0, 0.0, 0.0, 1.0, 0.0)
  }

  /** Matrix::MakeScale(s): uniform scale by `s` about the origin. */
  function MakeScale(s: real): Matrix
  {
    Matrix(s, 0.0, 0.0, 0.0, s, 0.0)
  }

  /** Matrix::MakeTrans(dx, dy). */
  function MakeTrans(dx: real, dy: real): Matrix
  {
    Matrix(1.0, 0.0, dx, 0.0, 1.0, dy)
  }

  /** The product a * b: the map that applies `b` first, then `a`. */
  function Concat(a: Matrix, b: Matrix): Matrix
  {
    Matrix(a.scaleX * b.scaleX + a.skewX * b.skewY,
           a.scaleX * b.skewX + a.skewX * b.scaleY,
           a.scaleX * b.transX + a.skewX * b.transY + a.transX,
           a.skewY * b.scaleX + a.scaleY * b.skewY,
           a.skewY * b.skewX + a.scaleY * b.scaleY,
           a.skewY * b.transX + a.scaleY * b.transY + a.transY)
  }

  function Determinant(m: Matrix): real
  {
    m.scaleX * m.scaleY - m.skewX * m.skewY
  }

  /**
   * Matrix::invert: the inverse of `m`, or nothing when `m` is singular, in
   * which case the caller's destination matrix is left as it was.
   */
  function Invert(m: Matrix): (inverse: Option<Matrix>)
    ensures inverse.Some? <==> Determinant(m) != 0.0
    ensures inverse.Some? ==> Concat(m, inverse.value) == Identity()
    ensures inverse.Some? ==> Concat(inverse.value, m) == Identity()
  {
    var det := Determinant(m);
    if det == 0.0 then None
    else
      var k := 1.0 / det;
      var inv := Matrix(m.scaleY * k, -m.skewX * k, (m.skewX * m.transY - m.scaleY * m.transX) * k,
                        -m.skewY * k, m.scaleX * k, (m.skewY * m.transX - m.scaleX * m.transY) * k);
      InverseProducts(m, det, k, inv);
      Some(inv)
  }

  /**
   * The two products of a non-singular matrix with its adjugate scaled by 1/det are the identity.
   * The solver can sometimes find this unaided; the entry-by-entry steps below make
   * the nonlinear arithmetic go through on every solver seed.
   */
  lemma InverseProducts(m: Matrix, det: real, k: real, inv: Matrix)
    requires det == Determinant(m) && det != 0.0 && k == 1.0 / det
    requires inv == Matrix(m.scaleY * k, -m.skewX * k, (m.skewX * m.transY - m.scaleY * m.transX) * k,
                           -m.skewY * k, m.scaleX * k, (m.skewY * m.transX - m.scaleX * m.transY) * k)
    ensures Concat(m, inv) == Identity() && Concat(inv, m) == Identity()
  {
    var a, b, c, d, e, f := m.scaleX, m.skewX, m.transX, m.skewY, m.scaleY, m.transY;
    assert det * k == 1.0;
    assert a * (e * k) + b * (-d * k) == (a * e - b * d) * k;
    assert a * (-b * k) + b * (a * k) == 0.0;
    assert a * ((b * f - e * c) * k) + b * ((d * c - a * f) * k) + c == c - (a * e - b * d) * k * c;
    assert d * (e * k) + e * (-d * k) == 0.0;
    assert d * (-b * k) + e * (a * k) == (a * e - b * d) * k;
    assert d * ((b * f - e * c) * k) + e * ((d * c - a * f) * k) + f == f - (a * e - b * d) * k * f;
    assert (e * k) * a + (-b * k) * d == (a * e - b * d) * k;
    assert (e * k) * b + (-b * k) * e == 0.0;
    assert (e * k) * c + (-b * k) * f + (b * f - e * c) * k == 0.0;
    assert (-d * k) * a + (a * k) * d == 0.0;
    assert (-d * k) * b + (a * k) * e == (a * e - b * d) * k;
    assert (-d * k) * c + (a * k) * f + (d * c - a * f) * k == 0.0;
  }
}
