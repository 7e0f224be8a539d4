/** The stand-alone grid helpers at the top of util/renderwindow.py:
    `uvPlane`, the vertex generator `uvVertex` (three components per
    vertex) and the index generator `uvIndex`, and the 10-by-10 sphere the
    script builds its buffers from. They are the earlier copies of the
    generators in util/module_gl_parametric.py, and are proved to produce
    exactly what those produce. */
module RenderWindow {
  import opened Python
  import opened Parametric
  import opened ParametricGl

  /** `uvPlane`: the same XZ plane as `planePos`. */
  function UvPlane(u: real, v: real): (p: seq<real>)
    ensures p == PlanePos(u, v)
  {
    [u - 0.5, 0 as real, 0.5 - v]
  }

  /** The corners of the unit parameter square land on opposite corners of
      the plane. */
  lemma UvPlaneCorners()
    ensures UvPlane(0.0, 0.0) == [-0.5, 0.0, 0.5]
    ensures UvPlane(1.0, 1.0) == [0.5, 0.0, -0.5]
    ensures forall u, v :: UvPlane(u, v)[1] == 0.0
  {
  }

  /** `uvVertex`: for each row v and column u, sample the shape and emit its
      components 0, 1 and 2; the same stream as `createParametricVecN` with
      n = 3. */
  method UvVertex(usteps: int, vsteps: int, fn: Shape) returns (r: Result<seq<real>>)
    ensures r == ParametricVecN(3, usteps, vsteps, fn)
  {
    var us := usteps + 1;
    var vs := vsteps + 1;
    var out: seq<real> := [];
    ghost var c := 0;
    var v := 0;
    while v < vs
      invariant 0 <= v && (vs >= 0 ==> v <= vs)
      invariant out == [] || (usteps > 0 && vsteps > 0)
      invariant usteps > 0 && vsteps > 0 ==> c == v * us && Stream(3, usteps, vsteps, fn, c) == Ok(out)
      invariant usteps >= 0 && vsteps >= 0 && (usteps == 0 || vsteps == 0) ==> v == 0
    {
      var u := 0;
      while u < us
        invariant 0 <= u && (us >= 0 ==> u <= us)
        invariant out == [] || (usteps > 0 && vsteps > 0)
        invariant usteps > 0 && vsteps > 0 ==> c == v * us + u && Stream(3, usteps, vsteps, fn, c) == Ok(out)
        invariant usteps >= 0 && vsteps >= 0 && (usteps == 0 || vsteps == 0) ==> u == 0
      {
        if usteps == 0 || vsteps == 0 {
          return Err(ZeroDivisionError);
        }
        var xyz := fn(Param(u, usteps), Param(v, vsteps));
        SampleAt(usteps, vsteps, fn, c, u, v);
        StreamNext(3, usteps, vsteps, fn, c);
        if |xyz| < 3 {
          CellBelow(u, v, us, vs);
          StreamErrSticky(3, usteps, vsteps, fn, c + 1, VertexCount(usteps, vsteps));
          return Err(IndexError);
        }
        var before := out;
        out := out + [xyz[0]];
        out := out + [xyz[1]];
        out := out + [xyz[2]];
        assert out == before + [xyz[0], xyz[1], xyz[2]] == before + xyz[..3];
        c := c + 1;
        u := u + 1;
      }
      assert usteps > 0 ==> v * us + u == (v + 1) * us;
      v := v + 1;
    }
    assert usteps > 0 && vsteps > 0 ==> c == VertexCount(usteps, vsteps);
    return Ok(out);
  }

  /** `uvIndex`: the same six-index cell pattern as
      `createParametricIndices`. */
  method UvIndex(usteps: int, vsteps: int) returns (r: seq<int>)
    ensures r == ParametricIndices(usteps, vsteps)
  {
    var us := usteps + 1;
    r := [];
    ghost var c := 0;
    var v := 0;
    while v < vsteps
      invariant 0 <= v && (vsteps >= 0 ==> v <= vsteps) && (vsteps <= 0 ==> v == 0)
      invariant usteps > 0 ==> c == v * usteps && r == Indices(usteps, c)
      invariant usteps <= 0 ==> r == []
    {
      var u := 0;
      while u < usteps
        invariant 0 <= u && (usteps >= 0 ==> u <= usteps)
        invariant usteps > 0 ==> c == v * usteps + u && r == Indices(usteps, c)
        invariant usteps <= 0 ==> r == []
      {
        var p00, p10 := (u + 0) + (v + 0) * us, (u + 1) + (v + 0) * us;
        var p11, p01 := (u + 1) + (v + 1) * us, (u + 0) + (v + 1) * us;
        assert [p00, p10, p11, p11, p01, p00] == Quad(usteps, u, v);
        IndicesNext(usteps, c, u, v);
        ghost var before := r;
        r := r + [p00];
        r := r + [p10];
        r := r + [p11];
        r := r + [p11];
        r := r + [p01];
        r := r + [p00];
        assert r == before + [p00, p10, p11, p11, p01, p00];
        c := c + 1;
        u := u + 1;
      }
      assert usteps > 0 ==> v * usteps + u == (v + 1) * usteps;
      v := v + 1;
    }
    assert usteps > 0 && vsteps > 0 ==> v * usteps == usteps * vsteps;
  }

  /** The largest value a numpy.uint16 holds. */
  const MaxUint16: int := 0xFFFF

  /** The buffers of the 10-by-10 sphere: 121 vertices of 3 floats and 600
      indices, the largest of them 120, so the uint16 index buffer holds
      them all without wrapping. */
  lemma TenByTenGrid(usteps: int, vsteps: int, sphere: Shape)
    requires usteps == 10 && vsteps == 10
    requires forall u, v :: |sphere(u, v)| == 3
    ensures VertexCount(usteps, vsteps) == 121
    ensures ParametricVecN(3, usteps, vsteps, sphere).Ok?
    ensures |ParametricVecN(3, usteps, vsteps, sphere).value| == 363
    ensures |ParametricIndices(usteps, vsteps)| == 600
    ensures forall t :: 0 <= t < 600 ==> 0 <= ParametricIndices(usteps, vsteps)[t] <= 120 <= MaxUint16
    ensures ParametricIndices(usteps, vsteps)[596] == 120
  {
    StreamOk(3, usteps, vsteps, sphere, VertexCount(usteps, vsteps));
    VecNOutcome(3, usteps, vsteps, sphere);
    IndicesInRange(usteps, vsteps);
    IndicesAt(usteps, vsteps, 9, 9, 2);
  }
}
