/** The 4-by-4 transform constructors of util/module_matrix.py. The renderer
    multiplies row vectors on the left (`position @ model @ view @
    projection`), so a translation sits in the last row. Entries are reals:
    numpy's float32 rounding is not modelled, and `tan`, `sqrt` and the
    degree-to-radian conversion enter as parameters. */
module Transforms {
  import opened Python

  type Mat4 = seq<seq<real>>

  /** Four rows of four entries. */
  predicate Is4x4(m: Mat4) {
    |m| == 4 && forall i :: 0 <= i < 4 ==> |m[i]| == 4
  }

  /** The matrices agree entry by entry. */
  predicate SameEntries(a: Mat4, b: Mat4)
    requires Is4x4(a) && Is4x4(b)
  {
    forall i, j :: 0 <= i < 4 && 0 <= j < 4 ==> a[i][j] == b[i][j]
  }

  /** Two 4-by-4 matrices with the same entries are the same matrix. */
  lemma SameMatrix(a: Mat4, b: Mat4)
    requires Is4x4(a) && Is4x4(b) && SameEntries(a, b)
    ensures a == b
  {
    forall i | 0 <= i < 4
      ensures a[i] == b[i]
    {
      assert |a[i]| == |b[i]|;
    }
  }

  function Identity4(): (m: Mat4)
    ensures Is4x4(m)
  {
    [[1.0, 0.0, 0.0, 0.0],
     [0.0, 1.0, 0.0, 0.0],
     [0.0, 0.0, 1.0, 0.0],
     [0.0, 0.0, 0.0, 1.0]]
  }

  /** Entry (i, j) of the product a @ b. */
  function MulAt(a: Mat4, b: Mat4, i: int, j: int): real
    requires Is4x4(a) && Is4x4(b) && 0 <= i < 4 && 0 <= j < 4
  {
    a[i][0] * b[0][j] + a[i][1] * b[1][j] + a[i][2] * b[2][j] + a[i][3] * b[3][j]
  }

  /** numpy's matrix product `a @ b` of two 4-by-4 matrices. */
  function Mul(a: Mat4, b: Mat4): (m: Mat4)
    requires Is4x4(a) && Is4x4(b)
    ensures Is4x4(m)
    ensures forall i, j :: 0 <= i < 4 && 0 <= j < 4 ==> m[i][j] == MulAt(a, b, i, j)
  {
    seq(4, i requires 0 <= i < 4 => seq(4, j requires 0 <= j < 4 => MulAt(a, b, i, j)))
  }

  /** The row vector p times m, `p @ m`. */
  function Apply(p: seq<real>, m: Mat4): (q: seq<real>)
    requires |p| == 4 && Is4x4(m)
    ensures |q| == 4
  {
    seq(4, j requires 0 <= j < 4 => p[0] * m[0][j] + p[1] * m[1][j] + p[2] * m[2][j] + p[3] * m[3][j])
  }

  /** `matScale`. */
  function MatScale(x: real, y: real, z: real): (m: Mat4)
    ensures Is4x4(m)
  {
    [[x, 0.0, 0.0, 0.0],
     [0.0, y, 0.0, 0.0],
     [0.0, 0.0, z, 0.0],
     [0.0, 0.0, 0.0, 1.0]]
  }

  /** `matTranslate`: the offset in the last row, for row vectors. */
  function MatTranslate(x: real, y: real, z: real): (m: Mat4)
    ensures Is4x4(m)
  {
    [[1.0, 0.0, 0.0, 0.0],
     [0.0, 1.0, 0.0, 0.0],
     [0.0, 0.0, 1.0, 0.0],
     [x, y, z, 1.0]]
  }

  /** A scale scales a point and leaves w alone; a translation moves a point
      (w = 1) by its offset and leaves a direction (w = 0) where it is. */
  lemma ScaleAndTranslatePoints(x: real, y: real, z: real, px: real, py: real, pz: real)
    ensures Apply([px, py, pz, 1.0], MatScale(x, y, z)) == [px * x, py * y, pz * z, 1.0]
    ensures Apply([px, py, pz, 1.0], MatTranslate(x, y, z)) == [px + x, py + y, pz + z, 1.0]
    ensures Apply([px, py, pz, 0.0], MatTranslate(x, y, z)) == [px, py, pz, 0.0]
  {
    var q := Apply([px, py, pz, 1.0], MatScale(x, y, z));
    assert q[0] == px * x && q[1] == py * y && q[2] == pz * z && q[3] == 1.0;
    q := Apply([px, py, pz, 1.0], MatTranslate(x, y, z));
    assert q[0] == px + x && q[1] == py + y && q[2] == pz + z && q[3] == 1.0;
    q := Apply([px, py, pz, 0.0], MatTranslate(x, y, z));
    assert q[0] == px && q[1] == py && q[2] == pz && q[3] == 0.0;
  }

  /** The neutral scale and the zero translation are the identity. */
  lemma NeutralTransforms()
    ensures MatScale(1.0, 1.0, 1.0) == Identity4()
    ensures MatTranslate(0.0, 0.0, 0.0) == Identity4()
  {
  }

  /** The identity is neutral for the product on both sides. */
  lemma {:induction false} IdentityNeutral(m: Mat4)
    requires Is4x4(m)
    ensures Mul(Identity4(), m) == m && Mul(m, Identity4()) == m
  {
    SameMatrix(Mul(Identity4(), m), m);
    SameMatrix(Mul(m, Identity4()), m);
  }

  /** Translations compose by adding their offsets. */
  lemma {:induction false} TranslateCompose(x: real, y: real, z: real, a: real, b: real, c: real)
    ensures Mul(MatTranslate(x, y, z), MatTranslate(a, b, c)) == MatTranslate(x + a, y + b, z + c)
  {
    SameMatrix(Mul(MatTranslate(x, y, z), MatTranslate(a, b, c)), MatTranslate(x + a, y + b, z + c));
  }

  /** Scales compose by multiplying their factors component by component. */
  lemma {:induction false} ScaleCompose(x: real, y: real, z: real, a: real, b: real, c: real)
    ensures Mul(MatScale(x, y, z), MatScale(a, b, c)) == MatScale(x * a, y * b, z * c)
  {
    SameMatrix(Mul(MatScale(x, y, z), MatScale(a, b, c)), MatScale(x * a, y * b, z * c));
  }

  /** Scaling then translating, as `scale @ translate`, scales the point
      about the origin and then moves it. */
  lemma {:induction false} ScaleThenTranslate(x: real, y: real, z: real, a: real, b: real, c: real,
                                              px: real, py: real, pz: real)
    ensures Apply([px, py, pz, 1.0], Mul(MatScale(x, y, z), MatTranslate(a, b, c))) ==
      [px * x + a, py * y + b, pz * z + c, 1.0]
  {
    var m := Mul(MatScale(x, y, z), MatTranslate(a, b, c));
    assert m[0] == [x, 0.0, 0.0, 0.0];
    assert m[1] == [0.0, y, 0.0, 0.0];
    assert m[2] == [0.0, 0.0, z, 0.0];
    assert m[3] == [a, b, c, 1.0];
    var q := Apply([px, py, pz, 1.0], m);
    assert q[0] == px * x + a && q[1] == py * y + b && q[2] == pz * z + c && q[3] == 1.0;
  }

  /** `matProjection`, given `tanHalfFov`, the value `math.tan` returns for
      half the field of view in radians: f = 1 / tanHalfFov raises
      ZeroDivisionError first, then N = (far + near) / (near - far) when the
      planes coincide. */
  function MatProjection(tanHalfFov: real, near: real, far: real): (r: Result<Mat4>)
    ensures r.Err? <==> tanHalfFov == 0.0 || near == far
    ensures r.Err? ==> r.error == ZeroDivisionError
    ensures r.Ok? ==> Is4x4(r.value)
    ensures r.Ok? ==> r.value[0][0] * tanHalfFov == 1.0 && r.value[1][1] * tanHalfFov == 1.0
    ensures r.Ok? ==> r.value[2][2] * (near - far) == far + near && r.value[3][2] * (near - far) == 2.0 * far * near
    ensures r.Ok? ==> r.value[2][3] == -1.0 && r.value[3][3] == 0.0
    ensures r.Ok? ==> forall i, j :: 0 <= i < 4 && 0 <= j < 4 && !(i == j <= 2) && !(i >= 2 && j >= 2) ==>
      r.value[i][j] == 0.0
  {
    if tanHalfFov == 0.0 then Err(ZeroDivisionError)
    else if near - far == 0.0 then Err(ZeroDivisionError)
    else
      var f := 1.0 / tanHalfFov;
      var n := (far + near) / (near - far);
      var ff := (2.0 * far * near) / (near - far);
      Ok([[f, 0.0, 0.0, 0.0],
          [0.0, f, 0.0, 0.0],
          [0.0, 0.0, n, -1.0],
          [0.0, 0.0, ff, 0.0]])
  }

  /** The projection sends the near plane z = -near to depth -1 and the far
      plane z = -far to depth +1 after the divide by w, and makes w the
      distance in front of the eye. */
  lemma ProjectionDepth(tanHalfFov: real, near: real, far: real, x: real, y: real)
    requires MatProjection(tanHalfFov, near, far).Ok?
    ensures Apply([x, y, -near, 1.0], MatProjection(tanHalfFov, near, far).value)[3] == near
    ensures Apply([x, y, -near, 1.0], MatProjection(tanHalfFov, near, far).value)[2] == -near
    ensures Apply([x, y, -far, 1.0], MatProjection(tanHalfFov, near, far).value)[3] == far
    ensures Apply([x, y, -far, 1.0], MatProjection(tanHalfFov, near, far).value)[2] == far
  {
    var p := MatProjection(tanHalfFov, near, far).value;
    var d := near - far;
    assert p[2][2] * d == far + near && p[3][2] * d == 2.0 * far * near;
    assert (-near * p[2][2] + p[3][2]) * d == -near * (far + near) + 2.0 * far * near == -near * d;
    assert (-far * p[2][2] + p[3][2]) * d == -far * (far + near) + 2.0 * far * near == far * d;
  }

  /** A vector of three components. */
  datatype Vec3 = Vec3(x: real, y: real, z: real)

  function Sub(a: Vec3, b: Vec3): Vec3 {
    Vec3(a.x - b.x, a.y - b.y, a.z - b.z)
  }

  function Dot(a: Vec3, b: Vec3): real {
    a.x * b.x + a.y * b.y + a.z * b.z
  }

  function Cross(a: Vec3, b: Vec3): Vec3 {
    Vec3(a.y * b.z - a.z * b.y, a.z * b.x - a.x * b.z, a.x * b.y - a.y * b.x)
  }

  /** The cross product is perpendicular to both of its factors. */
  lemma CrossPerpendicular(a: Vec3, b: Vec3)
    ensures Dot(Cross(a, b), a) == 0.0 && Dot(Cross(a, b), b) == 0.0
  {
    assert Dot(Cross(a, b), a) == a.y * b.z * a.x - a.z * b.y * a.x + a.z * b.x * a.y - a.x * b.z * a.y + a.x * b.y * a.z - a.y * b.x * a.z;
    assert Dot(Cross(a, b), b) == a.y * b.z * b.x - a.z * b.y * b.x + a.z * b.x * b.y - a.x * b.z * b.y + a.x * b.y * b.z - a.y * b.x * b.z;
  }

  /** The three axes of the camera: forward f, side s and up u. */
  datatype Frame = Frame(f: Vec3, s: Vec3, u: Vec3)

  /** The axes `matLookAt` computes, given `normalize`, which divides a
      vector by its length. */
  function LookAtFrame(eye: Vec3, center: Vec3, up: Vec3, normalize: Vec3 -> Vec3): (fr: Frame)
    ensures fr.u == Cross(fr.s, fr.f)
    ensures Dot(fr.u, fr.s) == 0.0 && Dot(fr.u, fr.f) == 0.0
  {
    var f := normalize(Sub(center, eye));
    var s := normalize(Cross(f, up));
    CrossPerpendicular(s, f);
    Frame(f, s, Cross(s, f))
  }

  /** The view matrix of a camera frame at the eye: the side, up and
      backward axes as the first three columns and the eye's coordinates in
      that frame, negated, in the last row. */
  function ViewMatrix(fr: Frame, eye: Vec3): (m: Mat4)
    ensures Is4x4(m)
    ensures m[0][3] == 0.0 && m[1][3] == 0.0 && m[2][3] == 0.0 && m[3][3] == 1.0
  {
    var s, u, f := fr.s, fr.u, fr.f;
    [[s.x, u.x, -f.x, 0.0],
     [s.y, u.y, -f.y, 0.0],
     [s.z, u.z, -f.z, 0.0],
     [-Dot(s, eye), -Dot(u, eye), Dot(f, eye), 1.0]]
  }

  /** Column j of the upper-left 3-by-3 block of a 4-by-4 matrix. */
  function Column(m: Mat4, j: int): Vec3
    requires Is4x4(m) && 0 <= j < 4
  {
    Vec3(m[0][j], m[1][j], m[2][j])
  }

  function Negate(a: Vec3): Vec3 {
    Vec3(-a.x, -a.y, -a.z)
  }

  /** `matLookAt`: the backward axis (third column, negated) is the
      normalized direction from the eye to the center, the side axis (first
      column) is the normalized cross product of that direction with up, the
      up axis (second column) completes the frame perpendicular to both, the
      last column is (0, 0, 0, 1) and the eye is sent to the origin. */
  function MatLookAt(eye: Vec3, center: Vec3, up: Vec3, normalize: Vec3 -> Vec3): (m: Mat4)
    ensures Is4x4(m)
    ensures Negate(Column(m, 2)) == normalize(Sub(center, eye))
    ensures Column(m, 0) == normalize(Cross(Negate(Column(m, 2)), up))
    ensures Column(m, 1) == Cross(Column(m, 0), Negate(Column(m, 2)))
    ensures Dot(Column(m, 1), Column(m, 0)) == 0.0 && Dot(Column(m, 1), Column(m, 2)) == 0.0
    ensures m[0][3] == 0.0 && m[1][3] == 0.0 && m[2][3] == 0.0 && m[3][3] == 1.0
    ensures Apply([eye.x, eye.y, eye.z, 1.0], m) == [0.0, 0.0, 0.0, 1.0]
  {
    var fr := LookAtFrame(eye, center, up, normalize);
    ViewEye(fr, eye);
    ViewColumns(fr, eye);
    ViewMatrix(fr, eye)
  }

  /** The columns of a view matrix are the side, up and backward axes. */
  lemma ViewColumns(fr: Frame, eye: Vec3)
    ensures Column(ViewMatrix(fr, eye), 0) == fr.s && Column(ViewMatrix(fr, eye), 1) == fr.u
    ensures Negate(Column(ViewMatrix(fr, eye), 2)) == fr.f
    ensures Dot(fr.u, Column(ViewMatrix(fr, eye), 2)) == -Dot(fr.u, fr.f)
  {
    var m := ViewMatrix(fr, eye);
    assert Column(m, 2) == Negate(fr.f);
  }

  /** A view matrix moves the eye to the origin. */
  lemma ViewEye(fr: Frame, eye: Vec3)
    ensures Apply([eye.x, eye.y, eye.z, 1.0], ViewMatrix(fr, eye)) == [0.0, 0.0, 0.0, 1.0]
  {
    var m := ViewMatrix(fr, eye);
    var q := Apply([eye.x, eye.y, eye.z, 1.0], m);
    assert q[0] == eye.x * fr.s.x + eye.y * fr.s.y + eye.z * fr.s.z - Dot(fr.s, eye) == 0.0;
    assert q[1] == eye.x * fr.u.x + eye.y * fr.u.y + eye.z * fr.u.z - Dot(fr.u, eye) == 0.0;
    assert q[2] == -(eye.x * fr.f.x + eye.y * fr.f.y + eye.z * fr.f.z) + Dot(fr.f, eye) == 0.0;
    assert q[3] == 1.0;
  }

  /** A view matrix turns a direction (w = 0) into its coordinates along
      the side, up and backward axes, without moving it. */
  lemma ViewDirection(fr: Frame, eye: Vec3, d: Vec3)
    ensures Apply([d.x, d.y, d.z, 0.0], ViewMatrix(fr, eye)) == [Dot(d, fr.s), Dot(d, fr.u), -Dot(d, fr.f), 0.0]
  {
    var m := ViewMatrix(fr, eye);
    var q := Apply([d.x, d.y, d.z, 0.0], m);
    assert q[0] == Dot(d, fr.s) && q[1] == Dot(d, fr.u) && q[2] == -Dot(d, fr.f) && q[3] == 0.0;
  }
}
