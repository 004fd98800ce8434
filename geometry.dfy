/** Three-component real vectors, 3×3 matrices, and the abstract numeric
    layer that stands in for numpy's square root and trigonometry. */
module Geometry {

  datatype Option<T> = None | Some(value: T)

  /** numpy's transcendental operations, left uninterpreted. The square root
      is the only one constrained (by SqrtSpec); sin, cos, tan and the
      degree-to-radian conversion may be any functions at all. */
  datatype Maths = Maths(
    sqrt: real -> real,
    sin: real -> real,
    cos: real -> real,
    tan: real -> real,
    radians: real -> real)
  {
    /** `sqrt(d)` is the non-negative square root of `d`, if `d` has one. */
    ghost predicate SqrtAt(d: real) {
      0.0 <= d ==> 0.0 <= sqrt(d) && sqrt(d) * sqrt(d) == d
    }

    /** The one axiom on the numeric layer: on non-negative inputs `sqrt`
        returns the non-negative square root. Proofs that need it at a
        particular `d` say so with `SqrtAt(d)`. */
    ghost predicate SqrtSpec() {
      forall d: real :: SqrtAt(d)
    }
  }

  /** Positions, directions and colours alike. */
  datatype Vec3 = Vec3(x: real, y: real, z: real)

  const Zero := Vec3(0.0, 0.0, 0.0)

  function Add(u: Vec3, v: Vec3): Vec3 {
    Vec3(u.x + v.x, u.y + v.y, u.z + v.z)
  }

  function Sub(u: Vec3, v: Vec3): Vec3 {
    Vec3(u.x - v.x, u.y - v.y, u.z - v.z)
  }

  /** `k * v`, numpy's scalar-times-array. */
  function Scale(v: Vec3, k: real): Vec3 {
    Vec3(k * v.x, k * v.y, k * v.z)
  }

  function Dot(u: Vec3, v: Vec3): real {
    u.x * v.x + u.y * v.y + u.z * v.z
  }

  /** `np.linalg.norm`: the square root of the vector's dot product with itself. */
  function Norm(m: Maths, v: Vec3): real {
    m.sqrt(Dot(v, v))
  }

  lemma MulPos(a: real, b: real)
    requires 0.0 < a && 0.0 < b
    ensures 0.0 < a * b
  {
  }

  /** A non-zero real has a positive square. */
  lemma SquarePos(r: real)
    requires r != 0.0
    ensures 0.0 < r * r
  {
    if 0.0 < r {
      MulPos(r, r);
    } else {
      MulPos(-r, -r);
      assert (-r) * (-r) == r * r;
    }
  }

  lemma SquareNonNegative(r: real)
    ensures 0.0 <= r * r
  {
    if r != 0.0 {
      SquarePos(r);
    }
  }

  lemma DotSelfNonNegative(v: Vec3)
    ensures 0.0 <= Dot(v, v)
  {
  }

  lemma SumOfSquaresPos(a: real, b: real, c: real)
    requires a != 0.0 || b != 0.0 || c != 0.0
    ensures 0.0 < a * a + b * b + c * c
  {
    SquareNonNegative(a);
    SquareNonNegative(b);
    SquareNonNegative(c);
    if a != 0.0 {
      SquarePos(a);
    } else if b != 0.0 {
      SquarePos(b);
    } else {
      SquarePos(c);
    }
  }

  lemma DotSelfPos(v: Vec3)
    requires v != Zero
    ensures 0.0 < Dot(v, v)
  {
    calc {
      Dot(v, v);
      ==
      v.x * v.x + v.y * v.y + v.z * v.z;
      > { SumOfSquaresPos(v.x, v.y, v.z); }
      0.0;
    }
  }

  /** A non-zero vector has a positive norm. */
  lemma NormPos(m: Maths, v: Vec3)
    requires m.SqrtSpec() && v != Zero
    ensures 0.0 < Norm(m, v)
  {
    DotSelfPos(v);
    var d := Dot(v, v);
    assert m.SqrtAt(d);
    assert 0.0 <= m.sqrt(d) && m.sqrt(d) * m.sqrt(d) == d;
  }

  /** `normalise` (`vector / np.linalg.norm(vector)`). A zero vector is a
      precondition violation of the renderer's callers. */
  function Normalise(m: Maths, v: Vec3): (u: Vec3)
    requires m.SqrtSpec() && v != Zero
    ensures u != Zero
  {
    NormPos(m, v);
    var n := Norm(m, v);
    var u := Scale(v, 1.0 / n);
    assert u.x * n == v.x && u.y * n == v.y && u.z * n == v.z;
    u
  }

  /** `normalise` yields a unit vector pointing the same way as its input. */
  lemma NormaliseUnit(m: Maths, v: Vec3)
    requires m.SqrtSpec() && v != Zero
    ensures Dot(Normalise(m, v), Normalise(m, v)) == 1.0
    ensures exists k: real :: 0.0 < k && Normalise(m, v) == Scale(v, k)
  {
    NormPos(m, v);
    DotSelfNonNegative(v);
    var n := Norm(m, v);
    var k := 1.0 / n;
    var u := Normalise(m, v);
    assert u == Scale(v, k);
    assert m.SqrtAt(Dot(v, v));
    assert n * n == Dot(v, v);
    calc {
      Dot(u, u);
      k * v.x * (k * v.x) + k * v.y * (k * v.y) + k * v.z * (k * v.z);
      (k * k) * Dot(v, v);
      (k * k) * (n * n);
      (k * n) * (k * n);
      1.0;
    }
  }

  /** A 3×3 matrix, row by row. */
  datatype Mat3 = Mat3(r0: Vec3, r1: Vec3, r2: Vec3)

  /** Matrix–vector product, `matrix @ vector`. */
  function Apply(a: Mat3, v: Vec3): Vec3 {
    Vec3(Dot(a.r0, v), Dot(a.r1, v), Dot(a.r2, v))
  }

  /** Row `r` times matrix `b`. */
  function RowTimes(r: Vec3, b: Mat3): Vec3 {
    Add(Add(Scale(b.r0, r.x), Scale(b.r1, r.y)), Scale(b.r2, r.z))
  }

  /** Matrix product, `a @ b`. */
  function Mul(a: Mat3, b: Mat3): Mat3 {
    Mat3(RowTimes(a.r0, b), RowTimes(a.r1, b), RowTimes(a.r2, b))
  }

  lemma RowTimesDot(r: Vec3, b: Mat3, v: Vec3)
    ensures Dot(RowTimes(r, b), v) == Dot(r, Apply(b, v))
  {
    calc {
      Dot(RowTimes(r, b), v);
      (r.x * b.r0.x + r.y * b.r1.x + r.z * b.r2.x) * v.x
        + (r.x * b.r0.y + r.y * b.r1.y + r.z * b.r2.y) * v.y
        + (r.x * b.r0.z + r.y * b.r1.z + r.z * b.r2.z) * v.z;
      r.x * Dot(b.r0, v) + r.y * Dot(b.r1, v) + r.z * Dot(b.r2, v);
    }
  }

  /** Applying a product applies the right factor first: `(a @ b) @ v == a @ (b @ v)`. */
  lemma ApplyMul(a: Mat3, b: Mat3, v: Vec3)
    ensures Apply(Mul(a, b), v) == Apply(a, Apply(b, v))
  {
    RowTimesDot(a.r0, b, v);
    RowTimesDot(a.r1, b, v);
    RowTimesDot(a.r2, b, v);
  }
}
