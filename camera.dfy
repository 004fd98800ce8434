/** The camera: its rotation matrix, the screen window and the evenly
    spaced pixel offsets across it. */
module Camera {
  import opened Geometry

  /** Rotation about the x axis by `x` radians. */
  function XMatrix(m: Maths, x: real): Mat3 {
    Mat3(Vec3(1.0, 0.0, 0.0),
         Vec3(0.0, m.cos(x), -m.sin(x)),
         Vec3(0.0, m.sin(x), m.cos(x)))
  }

  /** Rotation about the y axis by `y` radians. */
  function YMatrix(m: Maths, y: real): Mat3 {
    Mat3(Vec3(m.cos(y), 0.0, m.sin(y)),
         Vec3(0.0, 1.0, 0.0),
         Vec3(-m.sin(y), 0.0, m.cos(y)))
  }

  /** Rotation about the z axis by `z` radians. */
  function ZMatrix(m: Maths, z: real): Mat3 {
    Mat3(Vec3(m.cos(z), -m.sin(z), 0.0),
         Vec3(m.sin(z), m.cos(z), 0.0),
         Vec3(0.0, 0.0, 1.0))
  }

  /** `generateTransformationMatrix`: the three angles, in degrees, are
      converted to radians and the elementary rotations are multiplied as
      `(zMatrix @ yMatrix) @ xMatrix`. */
  function TransformationMatrix(m: Maths, xRotation: real, yRotation: real, zRotation: real): Mat3 {
    var z := m.radians(zRotation);
    var y := m.radians(yRotation);
    var x := m.radians(xRotation);
    Mul(Mul(ZMatrix(m, z), YMatrix(m, y)), XMatrix(m, x))
  }

  /** The composed matrix rotates about x first, then about y, then about z. */
  lemma TransformationOrder(m: Maths, xRotation: real, yRotation: real, zRotation: real, v: Vec3)
    ensures Apply(TransformationMatrix(m, xRotation, yRotation, zRotation), v)
         == Apply(ZMatrix(m, m.radians(zRotation)),
              Apply(YMatrix(m, m.radians(yRotation)),
                Apply(XMatrix(m, m.radians(xRotation)), v)))
  {
    var z, y, x := ZMatrix(m, m.radians(zRotation)), YMatrix(m, m.radians(yRotation)), XMatrix(m, m.radians(xRotation));
    ApplyMul(Mul(z, y), x, v);
    ApplyMul(z, y, Apply(x, v));
  }

  /** With angles whose cosine is 1 and sine is 0 the camera is not
      rotated: every ray direction is left as it is. */
  lemma ZeroRotationIsIdentity(m: Maths, xRotation: real, yRotation: real, zRotation: real, v: Vec3)
    requires m.cos(m.radians(xRotation)) == 1.0 && m.sin(m.radians(xRotation)) == 0.0
    requires m.cos(m.radians(yRotation)) == 1.0 && m.sin(m.radians(yRotation)) == 0.0
    requires m.cos(m.radians(zRotation)) == 1.0 && m.sin(m.radians(zRotation)) == 0.0
    ensures Apply(TransformationMatrix(m, xRotation, yRotation, zRotation), v) == v
  {
    TransformationOrder(m, xRotation, yRotation, zRotation, v);
  }

  /** The screen window `(left, top, right, bottom)` on the image plane. */
  datatype Window = Window(left: real, top: real, right: real, bottom: real)

  /** `screen`, derived from `ratio = width / height`. */
  function Screen(width: nat, height: nat): (w: Window)
    requires 0 < width && 0 < height
    ensures w.left == 1.0 && w.right == -1.0
    ensures w.bottom == -w.top
    ensures w.top * (width as real) == height as real
  {
    var ratio := (width as real) / (height as real);
    Window(1.0, 1.0 / ratio, -1.0, -(1.0 / ratio))
  }

  /** Element `k` of `np.linspace(start, stop, num)`: `start + k * step`
      with `step = (stop - start) / (num - 1)`, except that the last
      element of a multi-element range is `stop` itself; a one-element
      range is `[start]`. */
  function Linspace(start: real, stop: real, num: nat, k: nat): (v: real)
    requires k < num
    ensures k == 0 ==> v == start
    ensures 1 < num && k == num - 1 ==> v == stop
  {
    if 1 < num && k == num - 1 then stop
    else if 1 < num then (k as real) * ((stop - start) / ((num - 1) as real)) + start
    else start
  }

  /** The values `np.linspace` returns are evenly spaced. */
  lemma LinspaceEvenlySpaced(start: real, stop: real, num: nat, k: nat)
    requires 0 < k < num
    ensures Linspace(start, stop, num, k) - Linspace(start, stop, num, k - 1)
         == (stop - start) / ((num - 1) as real)
  {
    var step := (stop - start) / ((num - 1) as real);
    if k == num - 1 {
      assert step * ((num - 1) as real) == stop - start;
      calc {
        Linspace(start, stop, num, k) - Linspace(start, stop, num, k - 1);
        stop - (((k - 1) as real) * step + start);
        stop - start - ((num - 1) as real) * step + step;
        step;
      }
    }
  }
}
