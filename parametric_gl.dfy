/** The grid sampling of util/module_gl_parametric.py: a (usteps, vsteps)
    grid of quads has (usteps + 1) * (vsteps + 1) vertices, numbered row by
    row (v outer, u inner); `createParametricVecN` flattens n components of
    the shape at every vertex into one stream, and
    `createParametricIndices` lists two triangles per quad as indices into
    that numbering. The generators become methods that append to a
    sequence, each proved equal to a specification function. */
module ParametricGl {
  import opened Python
  import opened Parametric

  /** How many components `range(n)` visits. */
  function Width(n: int): nat {
    if n < 0 then 0 else n
  }

  /** The parameter of step k of `steps`: Python's true division k / steps. */
  function Param(k: int, steps: int): real
    requires steps != 0
  {
    k as real / steps as real
  }

  /** The number of a grid vertex: row v, column u, rows of usteps + 1. */
  function VertexIndex(usteps: int, u: int, v: int): int {
    u + v * (usteps + 1)
  }

  /** The number of vertices of the grid. */
  function VertexCount(usteps: int, vsteps: int): int {
    (usteps + 1) * (vsteps + 1)
  }

  /** The shape sampled at grid vertex number c. */
  function GridSample(usteps: int, vsteps: int, fn: Shape, c: nat): seq<real>
    requires usteps > 0 && vsteps > 0
  {
    fn(Param(c % (usteps + 1), usteps), Param(c / (usteps + 1), vsteps))
  }

  /** The stream of the first k vertices: the first n components of each
      sample, or IndexError at the first sample with fewer. */
  function Stream(n: int, usteps: int, vsteps: int, fn: Shape, k: nat): Result<seq<real>>
    requires usteps > 0 && vsteps > 0
  {
    if k == 0 then Ok([])
    else match Stream(n, usteps, vsteps, fn, k - 1)
      case Err(e) => Err(e)
      case Ok(s) =>
        var xyz := GridSample(usteps, vsteps, fn, k - 1);
        if |xyz| < Width(n) then Err(IndexError) else Ok(s + xyz[..Width(n)])
  }

  /** What `list(createParametricVecN(n, usteps, vsteps, fn))` gives: no
      vertex at all when a step count is negative, ZeroDivisionError at the
      first vertex when one is 0, and otherwise the stream of all of them. */
  function ParametricVecN(n: int, usteps: int, vsteps: int, fn: Shape): Result<seq<real>> {
    if usteps < 0 || vsteps < 0 then Ok([])
    else if usteps == 0 || vsteps == 0 then Err(ZeroDivisionError)
    else Stream(n, usteps, vsteps, fn, VertexCount(usteps, vsteps))
  }

  /** `createParametricVecN`: for each row v and column u, sample the shape
      and emit its first n components. */
  method CreateParametricVecN(n: int, usteps: int, vsteps: int, fn: Shape) returns (r: Result<seq<real>>)
    ensures r == ParametricVecN(n, usteps, vsteps, fn)
  {
    var us := usteps + 1;
    var vs := vsteps + 1;
    var out: seq<real> := [];
    ghost var c := 0;
    var v := 0;
    while v < vs
      invariant 0 <= v && (vs >= 0 ==> v <= vs)
      invariant out == [] || (usteps > 0 && vsteps > 0)
      invariant usteps > 0 && vsteps > 0 ==> c == v * us && Stream(n, usteps, vsteps, fn, c) == Ok(out)
      invariant usteps >= 0 && vsteps >= 0 && (usteps == 0 || vsteps == 0) ==> v == 0
    {
      var u := 0;
      while u < us
        invariant 0 <= u && (us >= 0 ==> u <= us)
        invariant out == [] || (usteps > 0 && vsteps > 0)
        invariant usteps > 0 && vsteps > 0 ==> c == v * us + u && Stream(n, usteps, vsteps, fn, c) == Ok(out)
        invariant usteps >= 0 && vsteps >= 0 && (usteps == 0 || vsteps == 0) ==> u == 0
      {
        if usteps == 0 || vsteps == 0 {
          return Err(ZeroDivisionError);
        }
        var xyz := fn(Param(u, usteps), Param(v, vsteps));
        SampleAt(usteps, vsteps, fn, c, u, v);
        var step := EmitComponents(out, xyz, n);
        assert Stream(n, usteps, vsteps, fn, c + 1) == step;
        if step.Err? {
          CellBelow(u, v, us, vs);
          StreamErrSticky(n, usteps, vsteps, fn, c + 1, VertexCount(usteps, vsteps));
          return Err(IndexError);
        }
        out := step.value;
        c := c + 1;
        u := u + 1;
      }
      assert usteps > 0 ==> v * us + u == (v + 1) * us;
      v := v + 1;
    }
    assert usteps > 0 && vsteps > 0 ==> c == VertexCount(usteps, vsteps);
    return Ok(out);
  }

  /** Vertex number c = v * (usteps + 1) + u is sampled at column u, row v. */
  /** The innermost loop of `createParametricVecN`: the first n components
      of one sample, appended to what was emitted so far, or IndexError
      when the sample has fewer. */
  method EmitComponents(out: seq<real>, xyz: seq<real>, n: int) returns (r: Result<seq<real>>)
    ensures r == if |xyz| < Width(n) then Err(IndexError) else Ok(out + xyz[..Width(n)])
  {
    var acc := out;
    var i := 0;
    while i < n
      invariant 0 <= i <= Width(n) && i <= |xyz|
      invariant acc == out + xyz[..i]
    {
      if i >= |xyz| {
        return Err(IndexError);
      }
      acc := acc + [xyz[i]];
      i := i + 1;
    }
    return Ok(acc);
  }

  lemma SampleAt(usteps: int, vsteps: int, fn: Shape, c: nat, u: int, v: int)
    requires usteps > 0 && vsteps > 0 && 0 <= u <= usteps && c == v * (usteps + 1) + u
    ensures GridSample(usteps, vsteps, fn, c) == fn(Param(u, usteps), Param(v, vsteps))
  {
    CellOf(c, u, v, usteps + 1);
  }

  /** Adding one row of w to a smaller multiple of w stays within a larger
      one. */
  lemma MulStep(a: int, b: int, w: int)
    requires a < b && w >= 0
    ensures a * w + w <= b * w
  {
    var d := b - a - 1;
    assert d * w >= 0;
    assert b * w == a * w + w + d * w;
  }

  /** Vertex number v * w + u is column u of row v. */
  lemma CellOf(c: int, u: int, v: int, w: int)
    requires 0 <= u < w && c == v * w + u
    ensures c % w == u && c / w == v
  {
    var q, r := c / w, c % w;
    assert c == q * w + r && 0 <= r < w;
    if q > v {
      MulStep(v, q, w);
    } else if q < v {
      MulStep(q, v, w);
    }
  }

  /** A cell inside a w-by-h grid comes before its end. */
  lemma CellBelow(u: int, v: int, w: int, h: int)
    requires 0 <= u < w && 0 <= v < h
    ensures 0 <= v * w + u && v * w + u + 1 <= w * h
  {
    MulStep(v, h, w);
    assert w * h == h * w;
  }

  /** A multiple of w grows with its factor. */
  lemma MulMono(a: int, b: int, w: int)
    requires a <= b && w >= 0
    ensures a * w <= b * w
  {
    assert b * w == a * w + (b - a) * w;
  }

  /** Cell number c of a w-wide grid of w * h cells lies in a row below h. */
  lemma RowBelow(c: int, w: int, h: int)
    requires 0 <= c < w * h && w > 0
    ensures 0 <= c / w < h
  {
    if c / w >= h {
      MulMono(h, c / w, w);
    }
  }

  /** One more vertex extends a stream with that vertex's n components, or
      fails with IndexError when it has fewer. */
  lemma StreamNext(n: int, usteps: int, vsteps: int, fn: Shape, c: nat)
    requires usteps > 0 && vsteps > 0 && Stream(n, usteps, vsteps, fn, c).Ok?
    ensures |GridSample(usteps, vsteps, fn, c)| < Width(n) ==> Stream(n, usteps, vsteps, fn, c + 1) == Err(IndexError)
    ensures |GridSample(usteps, vsteps, fn, c)| >= Width(n) ==>
      Stream(n, usteps, vsteps, fn, c + 1) ==
        Ok(Stream(n, usteps, vsteps, fn, c).value + GridSample(usteps, vsteps, fn, c)[..Width(n)])
  {
  }

  /** Once the stream has failed, every longer stream fails the same way. */
  lemma {:induction false} StreamErrSticky(n: int, usteps: int, vsteps: int, fn: Shape, k: nat, total: nat)
    requires usteps > 0 && vsteps > 0 && k <= total
    requires Stream(n, usteps, vsteps, fn, k).Err?
    ensures Stream(n, usteps, vsteps, fn, total) == Stream(n, usteps, vsteps, fn, k)
    decreases total - k
  {
    if k < total {
      StreamErrSticky(n, usteps, vsteps, fn, k, total - 1);
    }
  }

  /** The stream succeeds exactly when every sample has n components, and
      otherwise raises IndexError. */
  lemma {:induction false} StreamOk(n: int, usteps: int, vsteps: int, fn: Shape, k: nat)
    requires usteps > 0 && vsteps > 0
    ensures Stream(n, usteps, vsteps, fn, k).Ok? <==>
      forall c: nat :: c < k ==> |GridSample(usteps, vsteps, fn, c)| >= Width(n)
    ensures Stream(n, usteps, vsteps, fn, k).Err? ==> Stream(n, usteps, vsteps, fn, k).error == IndexError
    ensures Stream(n, usteps, vsteps, fn, k).Ok? ==> |Stream(n, usteps, vsteps, fn, k).value| == k * Width(n)
  {
    if k > 0 {
      StreamOk(n, usteps, vsteps, fn, k - 1);
      if Stream(n, usteps, vsteps, fn, k).Ok? {
        assert (k - 1) * Width(n) + Width(n) == k * Width(n);
      }
    }
  }

  /** Component i of sample c sits at position c * n + i of the stream. */
  lemma {:induction false} StreamAt(n: int, usteps: int, vsteps: int, fn: Shape, k: nat, c: nat, i: nat)
    requires usteps > 0 && vsteps > 0 && Stream(n, usteps, vsteps, fn, k).Ok?
    requires c < k && i < Width(n)
    ensures i < |GridSample(usteps, vsteps, fn, c)|
    ensures c * Width(n) + i < |Stream(n, usteps, vsteps, fn, k).value|
    ensures Stream(n, usteps, vsteps, fn, k).value[c * Width(n) + i] == GridSample(usteps, vsteps, fn, c)[i]
  {
    StreamOk(n, usteps, vsteps, fn, k);
    StreamOk(n, usteps, vsteps, fn, k - 1);
    var prev := Stream(n, usteps, vsteps, fn, k - 1).value;
    assert |prev| == (k - 1) * Width(n);
    if c < k - 1 {
      StreamAt(n, usteps, vsteps, fn, k - 1, c, i);
    } else {
      assert c * Width(n) + i == |prev| + i;
    }
  }

  /** `createParametricVecN` raises exactly when a step count is 0 and
      neither is negative (ZeroDivisionError), or when a sample has fewer
      than n components (IndexError); otherwise it yields n values per
      vertex of the grid. */
  lemma VecNOutcome(n: int, usteps: int, vsteps: int, fn: Shape)
    ensures ParametricVecN(n, usteps, vsteps, fn).Err? <==>
      (usteps >= 0 && vsteps >= 0 && (usteps == 0 || vsteps == 0)) ||
      (usteps > 0 && vsteps > 0 &&
       exists c: nat :: c < VertexCount(usteps, vsteps) && |GridSample(usteps, vsteps, fn, c)| < Width(n))
    ensures ParametricVecN(n, usteps, vsteps, fn).Err? ==>
      ParametricVecN(n, usteps, vsteps, fn).error == if usteps == 0 || vsteps == 0 then ZeroDivisionError else IndexError
    ensures ParametricVecN(n, usteps, vsteps, fn).Ok? ==>
      |ParametricVecN(n, usteps, vsteps, fn).value| ==
        if usteps < 0 || vsteps < 0 then 0 else VertexCount(usteps, vsteps) * Width(n)
  {
    if usteps > 0 && vsteps > 0 {
      StreamOk(n, usteps, vsteps, fn, VertexCount(usteps, vsteps));
    }
  }

  /** Component i of the shape at column u, row v of the grid is value
      number (v * (usteps + 1) + u) * n + i of the stream. */
  lemma VecNAt(n: int, usteps: int, vsteps: int, fn: Shape, u: int, v: int, i: int)
    requires usteps > 0 && vsteps > 0 && ParametricVecN(n, usteps, vsteps, fn).Ok?
    requires 0 <= u <= usteps && 0 <= v <= vsteps && 0 <= i < n
    ensures i < |fn(Param(u, usteps), Param(v, vsteps))|
    ensures 0 <= VertexIndex(usteps, u, v) * n + i < |ParametricVecN(n, usteps, vsteps, fn).value|
    ensures ParametricVecN(n, usteps, vsteps, fn).value[VertexIndex(usteps, u, v) * n + i] ==
      fn(Param(u, usteps), Param(v, vsteps))[i]
  {
    var c := VertexIndex(usteps, u, v);
    assert Width(n) == n;
    CellOf(c, u, v, usteps + 1);
    CellBelow(u, v, usteps + 1, vsteps + 1);
    StreamAt(n, usteps, vsteps, fn, VertexCount(usteps, vsteps), c, i);
    assert GridSample(usteps, vsteps, fn, c) == fn(Param(u, usteps), Param(v, vsteps));
  }

  /** The six indices `createParametricIndices` emits for the quad at
      column u, row v: the triangles (u, v), (u+1, v), (u+1, v+1) and
      (u+1, v+1), (u, v+1), (u, v). */
  function Quad(usteps: int, u: int, v: int): seq<int> {
    [VertexIndex(usteps, u, v), VertexIndex(usteps, u + 1, v), VertexIndex(usteps, u + 1, v + 1),
     VertexIndex(usteps, u + 1, v + 1), VertexIndex(usteps, u, v + 1), VertexIndex(usteps, u, v)]
  }

  /** The indices of the first k quads, row by row. */
  function Indices(usteps: int, k: nat): (r: seq<int>)
    requires usteps > 0
    ensures |r| == 6 * k
  {
    if k == 0 then []
    else Indices(usteps, k - 1) + Quad(usteps, (k - 1) % usteps, (k - 1) / usteps)
  }

  /** The number of quads: none when a step count is not positive. */
  function QuadCount(usteps: int, vsteps: int): nat {
    if usteps <= 0 || vsteps <= 0 then 0 else usteps * vsteps
  }

  /** What `list(createParametricIndices(usteps, vsteps))` gives. */
  function ParametricIndices(usteps: int, vsteps: int): (r: seq<int>)
    ensures |r| == 6 * QuadCount(usteps, vsteps)
  {
    if usteps <= 0 || vsteps <= 0 then [] else Indices(usteps, usteps * vsteps)
  }

  /** `createParametricIndices`: six indices per quad, rows outside,
      columns inside. */
  method CreateParametricIndices(usteps: int, vsteps: int) returns (r: seq<int>)
    ensures r == ParametricIndices(usteps, vsteps)
  {
    var us := usteps + 1;
    r := [];
    ghost var c := 0;
    var v := 0;
    while v < vsteps
      invariant 0 <= v && (vsteps >= 0 ==> v <= vsteps) && (vsteps <= 0 ==> v == 0)
      invariant usteps > 0 ==> c == v * usteps && r == Indices(usteps, c)
      invariant usteps <= 0 ==> r == []
    {
      var u := 0;
      while u < usteps
        invariant 0 <= u && (usteps >= 0 ==> u <= usteps)
        invariant usteps > 0 ==> c == v * usteps + u && r == Indices(usteps, c)
        invariant usteps <= 0 ==> r == []
      {
        var p00, p10 := (u + 0) + (v + 0) * us, (u + 1) + (v + 0) * us;
        var p11, p01 := (u + 1) + (v + 1) * us, (u + 0) + (v + 1) * us;
        IndicesNext(usteps, c, u, v);
        r := r + [p00, p10, p11, p11, p01, p00];
        c := c + 1;
        u := u + 1;
      }
      assert usteps > 0 ==> v * usteps + u == (v + 1) * usteps;
      v := v + 1;
    }
    assert usteps > 0 && vsteps > 0 ==> v * usteps == usteps * vsteps;
  }

  /** Quad number c = v * usteps + u adds the six indices of column u, row v. */
  lemma IndicesNext(usteps: int, c: nat, u: int, v: int)
    requires 0 <= u < usteps && c == v * usteps + u
    ensures Indices(usteps, c + 1) == Indices(usteps, c) + Quad(usteps, u, v)
  {
    CellOf(c, u, v, usteps);
  }

  /** Index number 6 * (v * usteps + u) + t is corner t of the quad at
      column u, row v. */
  lemma IndicesAt(usteps: int, vsteps: int, u: int, v: int, t: int)
    requires 0 <= u < usteps && 0 <= v < vsteps && 0 <= t < 6
    ensures 6 * (v * usteps + u) + t < |ParametricIndices(usteps, vsteps)|
    ensures ParametricIndices(usteps, vsteps)[6 * (v * usteps + u) + t] == Quad(usteps, u, v)[t]
  {
    var c := v * usteps + u;
    CellOf(c, u, v, usteps);
    CellBelow(u, v, usteps, vsteps);
    IndicesPrefix(usteps, c + 1, usteps * vsteps);
    assert Indices(usteps, c + 1)[6 * c + t] == Quad(usteps, u, v)[t];
  }

  /** The indices of fewer quads are a prefix of those of more. */
  lemma {:induction false} IndicesPrefix(usteps: int, k: nat, total: nat)
    requires usteps > 0 && k <= total
    ensures Indices(usteps, k) == Indices(usteps, total)[..6 * k]
    decreases total - k
  {
    if k < total {
      IndicesPrefix(usteps, k, total - 1);
      assert Indices(usteps, total)[..6 * (total - 1)] == Indices(usteps, total - 1);
    }
  }

  /** Every index names a vertex of the grid: 0 <= index < (usteps + 1) *
      (vsteps + 1). */
  lemma IndicesInRange(usteps: int, vsteps: int)
    ensures forall t :: 0 <= t < |ParametricIndices(usteps, vsteps)| ==>
      0 <= ParametricIndices(usteps, vsteps)[t] < VertexCount(usteps, vsteps)
  {
    if usteps > 0 && vsteps > 0 {
      IndicesBound(usteps, vsteps, usteps * vsteps);
    }
  }

  lemma {:induction false} IndicesBound(usteps: int, vsteps: int, k: nat)
    requires usteps > 0 && vsteps > 0 && k <= usteps * vsteps
    ensures forall t :: 0 <= t < |Indices(usteps, k)| ==> 0 <= Indices(usteps, k)[t] < VertexCount(usteps, vsteps)
  {
    if k > 0 {
      IndicesBound(usteps, vsteps, k - 1);
      var c := k - 1;
      RowBelow(c, usteps, vsteps);
      QuadInRange(usteps, vsteps, c % usteps, c / usteps);
    }
  }

  /** The corners of a quad inside the grid are vertices of the grid. */
  lemma QuadInRange(usteps: int, vsteps: int, u: int, v: int)
    requires 0 <= u < usteps && 0 <= v < vsteps
    ensures forall t :: 0 <= t < 6 ==> 0 <= Quad(usteps, u, v)[t] < VertexCount(usteps, vsteps)
  {
    CellBelow(u, v, usteps + 1, vsteps + 1);
    CellBelow(u + 1, v, usteps + 1, vsteps + 1);
    CellBelow(u, v + 1, usteps + 1, vsteps + 1);
    CellBelow(u + 1, v + 1, usteps + 1, vsteps + 1);
  }

  /** The two triangles of a quad share exactly the diagonal from (u, v) to
      (u+1, v+1). */
  lemma QuadDiagonal(usteps: int, u: int, v: int)
    requires usteps > 0
    ensures Quad(usteps, u, v)[0] == Quad(usteps, u, v)[5] && Quad(usteps, u, v)[2] == Quad(usteps, u, v)[3]
    ensures var q := Quad(usteps, u, v);
      {q[0], q[1], q[2]} * {q[3], q[4], q[5]} == {q[0], q[2]}
  {
    var q := Quad(usteps, u, v);
    assert q[1] != q[4] by {
      assert q[4] - q[1] == usteps;
    }
    assert q[1] != q[2] && q[4] != q[0];
    assert q[0] != q[2];
  }

  /** The buffers `glCreateParametric` fills: positions and normals with 3
      components per vertex, texture coordinates with 2, the indices, and
      `triangle_count`, which is the number of indices. */
  datatype MeshData = MeshData(vertices: seq<real>, normals: seq<real>, texcoords: seq<real>,
                               indices: seq<int>, triangleCount: int)

  /** `glCreateParametric` without the OpenGL buffer calls: the three
      streams in order (the first one to raise wins) and the indices. */
  method GlCreateParametric(usteps: int, vsteps: int, fn: Parametric) returns (r: Result<MeshData>)
    ensures r.Ok? <==> ParametricVecN(3, usteps, vsteps, fn.Pos).Ok? && ParametricVecN(3, usteps, vsteps, fn.Nor).Ok? &&
                       ParametricVecN(2, usteps, vsteps, fn.ST0).Ok?
    ensures r.Err? ==>
      r.error == if ParametricVecN(3, usteps, vsteps, fn.Pos).Err? then ParametricVecN(3, usteps, vsteps, fn.Pos).error
                 else if ParametricVecN(3, usteps, vsteps, fn.Nor).Err? then ParametricVecN(3, usteps, vsteps, fn.Nor).error
                 else ParametricVecN(2, usteps, vsteps, fn.ST0).error
    ensures r.Ok? ==>
      r.value.vertices == ParametricVecN(3, usteps, vsteps, fn.Pos).value &&
      r.value.normals == ParametricVecN(3, usteps, vsteps, fn.Nor).value &&
      r.value.texcoords == ParametricVecN(2, usteps, vsteps, fn.ST0).value &&
      r.value.indices == ParametricIndices(usteps, vsteps) &&
      r.value.triangleCount == 6 * QuadCount(usteps, vsteps)
  {
    var vtx := CreateParametricVecN(3, usteps, vsteps, fn.Pos);
    if vtx.Err? {
      return Err(vtx.error);
    }
    var nor := CreateParametricVecN(3, usteps, vsteps, fn.Nor);
    if nor.Err? {
      return Err(nor.error);
    }
    var st0 := CreateParametricVecN(2, usteps, vsteps, fn.ST0);
    if st0.Err? {
      return Err(st0.error);
    }
    var idx := CreateParametricIndices(usteps, vsteps);
    return Ok(MeshData(vtx.value, nor.value, st0.value, idx, |idx|));
  }

  /** The three streams of a successful mesh describe the same vertices:
      3, 3 and 2 values per vertex of the grid. */
  lemma MeshStreams(usteps: int, vsteps: int, fn: Parametric)
    requires usteps > 0 && vsteps > 0
    requires ParametricVecN(3, usteps, vsteps, fn.Pos).Ok? && ParametricVecN(3, usteps, vsteps, fn.Nor).Ok?
    requires ParametricVecN(2, usteps, vsteps, fn.ST0).Ok?
    ensures |ParametricVecN(3, usteps, vsteps, fn.Pos).value| == 3 * VertexCount(usteps, vsteps)
    ensures |ParametricVecN(3, usteps, vsteps, fn.Nor).value| == 3 * VertexCount(usteps, vsteps)
    ensures |ParametricVecN(2, usteps, vsteps, fn.ST0).value| == 2 * VertexCount(usteps, vsteps)
  {
    VecNOutcome(3, usteps, vsteps, fn.Pos);
    VecNOutcome(3, usteps, vsteps, fn.Nor);
    VecNOutcome(2, usteps, vsteps, fn.ST0);
  }
}
