/** The parametric shapes of util/module_parametric.py: a shape maps (u, v)
    to a vector, and a `Parametric` record bundles the functions for
    position, normal and texture coordinate. The sphere and the torus are
    trigonometric, so they enter as parameters; the plane and the unit UV
    map are plain real arithmetic. */
module Parametric {
  /** A parametric function from (u, v) to a vector of its components. */
  type Shape = (real, real) -> seq<real>

  /** The `Parametric` record: position, normal and texture coordinate. */
  datatype Parametric = Parametric(Pos: Shape, Nor: Shape, ST0: Shape)

  /** `planePos`: the XZ plane, centred on the origin, u along +x and v
      along -z. */
  function PlanePos(u: real, v: real): (p: seq<real>)
    ensures |p| == 3 && p[1] == 0.0
  {
    [u - 0.5, 0.0, 0.5 - v]
  }

  /** The parameters a point of the plane came from. */
  function PlaneParams(p: seq<real>): (real, real)
    requires |p| == 3
  {
    (p[0] + 0.5, 0.5 - p[2])
  }

  /** `planePos` loses nothing: its (u, v) can be read back from the point,
      and the points it makes are exactly those with y = 0. */
  lemma PlaneRoundTrip(u: real, v: real)
    ensures PlaneParams(PlanePos(u, v)) == (u, v)
  {
  }

  lemma PlaneOnto(p: seq<real>)
    requires |p| == 3 && p[1] == 0.0
    ensures PlanePos(PlaneParams(p).0, PlaneParams(p).1) == p
  {
    assert PlanePos(PlaneParams(p).0, PlaneParams(p).1)[0] == p[0];
    assert PlanePos(PlaneParams(p).0, PlaneParams(p).1)[2] == p[2];
  }

  /** `planeNor`: the normal of the plane is +y everywhere. */
  function PlaneNor(u: real, v: real): (n: seq<real>)
    ensures n == [0.0, 1.0, 0.0]
  {
    [0.0, 1.0, 0.0]
  }

  /** `unitUV`: the texture coordinate is the parameter pair itself. */
  function UnitUV(u: real, v: real): (st: seq<real>)
    ensures |st| == 2 && st[0] == u && st[1] == v
  {
    [u, v]
  }

  /** `getParametricPlane`. */
  function ParametricPlane(): (r: Parametric)
    ensures forall u, v :: r.Pos(u, v) == PlanePos(u, v)
    ensures forall u, v :: r.Nor(u, v) == PlaneNor(u, v)
    ensures forall u, v :: r.ST0(u, v) == UnitUV(u, v)
  {
    Parametric((u, v) => PlanePos(u, v), (u, v) => PlaneNor(u, v), (u, v) => UnitUV(u, v))
  }

  /** `getParametricSphere`, given `spherePos`. */
  function ParametricSphere(spherePos: Shape): (r: Parametric)
    ensures forall u, v :: r.Pos(u, v) == spherePos(u, v)
    ensures forall u, v :: r.Nor(u, v) == spherePos(u, v)
    ensures forall u, v :: r.ST0(u, v) == UnitUV(u, v)
  {
    Parametric(spherePos, spherePos, (u, v) => UnitUV(u, v))
  }

  /** `getParametricTorus(major, minor)`, given `torusPos`: the position
      uses the requested radii, the normal the torus of radii 0 and 1. */
  function ParametricTorus(torusPos: (real, real) -> Shape, major: real, minor: real): (r: Parametric)
    ensures forall u, v :: r.Pos(u, v) == torusPos(major, minor)(u, v)
    ensures forall u, v :: r.Nor(u, v) == torusPos(0.0, 1.0)(u, v)
    ensures forall u, v :: r.ST0(u, v) == UnitUV(u, v)
  {
    Parametric(torusPos(major, minor), torusPos(0.0, 1.0), (u, v) => UnitUV(u, v))
  }

  /** On the sphere the normal at every point is the position itself. */
  lemma SphereNormalIsPosition(spherePos: Shape, u: real, v: real)
    ensures ParametricSphere(spherePos).Nor(u, v) == ParametricSphere(spherePos).Pos(u, v)
  {
  }

  /** All three records give two texture components, (u, v). */
  lemma TextureCoordinates(spherePos: Shape, torusPos: (real, real) -> Shape, major: real, minor: real, u: real, v: real)
    ensures ParametricPlane().ST0(u, v) == [u, v]
    ensures ParametricSphere(spherePos).ST0(u, v) == [u, v]
    ensures ParametricTorus(torusPos, major, minor).ST0(u, v) == [u, v]
  {
  }
}
