/** The older GenMath.py at the root of the repository: the same trees, rank,
    minor, identity, symbolic matrix and determinant as util/GenMath.py
    (modules MatrixLists and Determinant), but operators that apply plain
    arithmetic, a transpose that keeps the input's shape, an equality that
    walks only the left operand, and an inverse built from
    `m[i][j] * det(minor(m, i, j))`. */
module LegacyGenMath {
  import opened Python
  import opened Expressions
  import opened MatrixLists
  import opened Determinant
  import GenMath
  import RealMatrix

  /** `Negate.apply`: `-lhs`, which only a number supports. */
  function NegateApply(x: Expr): (r: Result<Expr>)
    ensures r.Ok? <==> x.Num?
    ensures r.Ok? ==> r.value == Num(-x.n)
    ensures r.Err? ==> r.error == TypeError
  {
    if x.Num? then Ok(Num(-x.n)) else Err(TypeError)
  }

  /** `simplify`: a matrix element and a number come back unchanged, an
      operator node simplifies its operands (left before right) and applies
      plain arithmetic to them, anything else raises TypeError. */
  function Simplify(e: Expr): (r: Result<Expr>)
    ensures e.Elem? ==> r == Ok(e)
    ensures r.Ok? && !e.Elem? ==> r.value.Num?
  {
    match e
    case Num(_) => Ok(e)
    case Elem(_, _, _) => Ok(e)
    case Other => Err(TypeError)
    case Neg(a) =>
      (match Simplify(a)
       case Err(err) => Err(err)
       case Ok(x) => NegateApply(x))
    case Add(a, b) => SimplifyBinary(e, Simplify(a), Simplify(b))
    case Sub(a, b) => SimplifyBinary(e, Simplify(a), Simplify(b))
    case Mul(a, b) => SimplifyBinary(e, Simplify(a), Simplify(b))
    case Div(a, b) => SimplifyBinary(e, Simplify(a), Simplify(b))
  }

  /** One binary node of `simplify`, given its simplified operands. */
  function SimplifyBinary(op: Expr, l: Result<Expr>, r: Result<Expr>): (res: Result<Expr>)
    requires op.Add? || op.Sub? || op.Mul? || op.Div?
    ensures res.Ok? ==> res.value.Num?
  {
    match l
    case Err(err) => Err(err)
    case Ok(x) =>
      match r
      case Err(err) => Err(err)
      case Ok(y) => GenMath.Arith(op, x, y)
  }

  /** `simplify` succeeds exactly on a lone matrix element and on a tree of
      numbers whose arithmetic does not raise; on a tree of numbers it
      computes the tree's value and raises the exception the arithmetic
      raises. */
  lemma {:induction false} SimplifyExact(e: Expr, env: Valuation)
    ensures Simplify(e).Ok? <==> e.Elem? || (IsGround(e) && Eval(e, env).Ok?)
    ensures IsGround(e) && Simplify(e).Ok? ==> Simplify(e).value == Num(Eval(e, env).value)
    ensures IsGround(e) && Simplify(e).Err? ==> Simplify(e).error == Eval(e, env).error
  {
    match e
    case Num(_) =>
    case Elem(_, _, _) =>
    case Other =>
    case Neg(a) =>
      SimplifyExact(a, env);
    case Add(a, b) => SimplifyExactBinary(e, env);
    case Sub(a, b) => SimplifyExactBinary(e, env);
    case Mul(a, b) => SimplifyExactBinary(e, env);
    case Div(a, b) => SimplifyExactBinary(e, env);
  }

  lemma {:induction false} SimplifyExactBinary(e: Expr, env: Valuation)
    requires e.Add? || e.Sub? || e.Mul? || e.Div?
    ensures Simplify(e).Ok? <==> IsGround(e) && Eval(e, env).Ok?
    ensures IsGround(e) && Simplify(e).Ok? ==> Simplify(e).value == Num(Eval(e, env).value)
    ensures IsGround(e) && Simplify(e).Err? ==> Simplify(e).error == Eval(e, env).error
    decreases e, 0
  {
    SimplifyExact(e.lhs, env);
    SimplifyExact(e.rhs, env);
    assert Simplify(e) == SimplifyBinary(e, Simplify(e.lhs), Simplify(e.rhs));
    assert Eval(e, env) == EvalBinary(e, Eval(e.lhs, env), Eval(e.rhs, env));
  }

  /** Wherever the plain `simplify` succeeds, the one with short cuts in
      util/GenMath.py returns the same value. */
  lemma SimplifyAgrees(e: Expr)
    requires Simplify(e).Ok?
    ensures GenMath.Simplify(e) == Simplify(e)
  {
    var env: Valuation := (i, j, name) => 0.0;
    SimplifyExact(e, env);
    if !e.Elem? {
      GenMath.SimplifyGround(e, env);
    }
  }

  /** The converse fails: multiplying a matrix element by 0 is 0 with the
      short cuts and a TypeError without them. */
  lemma ShortCutsDiffer()
    ensures Simplify(Mul(Elem(0, 0, "m"), Num(0.0))) == Err(TypeError)
    ensures GenMath.Simplify(Mul(Elem(0, 0, "m"), Num(0.0))) == Ok(Num(0.0))
  {
  }

  /** `matSimplify`: every entry simplified, row by row. */
  function MatSimplify(m: Matrix): (r: Result<Matrix>)
    ensures r.Ok? <==> forall i, j :: 0 <= i < |m| && 0 <= j < |m[i]| ==> Simplify(m[i][j]).Ok?
    ensures r.Ok? ==> |r.value| == |m| && forall i :: 0 <= i < |m| ==> |r.value[i]| == |m[i]|
    ensures r.Ok? ==> forall i, j :: 0 <= i < |m| && 0 <= j < |m[i]| ==> r.value[i][j] == Simplify(m[i][j]).value
  {
    Visit(m, Simplify)
  }

  /** A matrix of the same shape as `target` whose every entry simplifies to
      the matching entry of `target` simplifies to `target`. */
  lemma MatSimplifyTo(m: Matrix, target: Matrix)
    requires |m| == |target| && forall i :: 0 <= i < |m| ==> |m[i]| == |target[i]|
    requires forall i, j :: 0 <= i < |m| && 0 <= j < |m[i]| ==> Simplify(m[i][j]) == Ok(target[i][j])
    ensures MatSimplify(m) == Ok(target)
  {
    var s := MatSimplify(m);
    assert s.Ok?;
    forall i | 0 <= i < |m|
      ensures s.value[i] == target[i]
    {
      assert |s.value[i]| == |target[i]|;
    }
    assert s.value == target;
  }

  /** The determinant of the identity simplifies to 1, from size 1 on. */
  lemma DetIdentityIsOne(n: nat)
    requires n >= 1
    ensures Det(Identity(n)).Ok? && Simplify(Det(Identity(n)).value) == Ok(Num(1.0))
  {
    var env: Valuation := (i, j, name) => 0.0;
    var m := Identity(n);
    assert IsLeafMatrix(m) && IsNumberMatrix(m);
    DetEval(m, env);
    ValuesIdentity(n, env);
    RealMatrix.DetIdentity(n);
    SimplifyExact(Det(m).value, env);
  }

  /** `matTranspose`: entry (i, j) of the result is `m[j][i]`, for every
      position of `m` itself, so the result keeps the input's shape; a
      position with no mirror entry raises IndexError. */
  function Transpose<T>(m: seq<seq<T>>): (r: Result<seq<seq<T>>>)
    ensures r.Ok? <==> forall i, j :: 0 <= i < |m| && 0 <= j < |m[i]| ==> HasMirror(m, i, j)
    ensures r.Err? ==> r.error == IndexError
    ensures r.Ok? ==> |r.value| == |m| && forall i :: 0 <= i < |m| ==> |r.value[i]| == |m[i]|
    ensures r.Ok? ==> forall i, j :: 0 <= i < |m| && 0 <= j < |m[i]| ==> HasMirror(m, i, j) && r.value[i][j] == m[j][i]
  {
    MirrorAll(m);
    VisitIndexErrKind(m, MirrorAt(m), IndexError);
    VisitIndex(m, MirrorAt(m))
  }

  /** Position (j, i) exists in `m`. */
  predicate HasMirror<T>(m: seq<seq<T>>, i: int, j: int) {
    0 <= j < |m| && 0 <= i < |m[j]|
  }

  /** The entry at the mirrored position (j, i), if there is one. */
  function Mirror<T>(m: seq<seq<T>>, i: int, j: int): Result<T> {
    if HasMirror(m, i, j) then Ok(m[j][i]) else Err(IndexError)
  }

  function MirrorAt<T>(m: seq<seq<T>>): (T, int, int) -> Result<T> {
    (x, i, j) => Mirror(m, i, j)
  }

  lemma MirrorAll<T>(m: seq<seq<T>>)
    ensures AllOk(m, MirrorAt(m)) <==> forall i, j :: 0 <= i < |m| && 0 <= j < |m[i]| ==> HasMirror(m, i, j)
    ensures forall i, j :: 0 <= i < |m| && 0 <= j < |m[i]| ==> MirrorAt(m)(m[i][j], i, j) == Mirror(m, i, j)
  {
    var f := MirrorAt(m);
    forall i, j | 0 <= i < |m| && 0 <= j < |m[i]|
      ensures f(m[i][j], i, j) == Mirror(m, i, j)
      ensures f(m[i][j], i, j).Ok? <==> HasMirror(m, i, j)
    {
    }
    if AllOk(m, f) {
      forall i, j | 0 <= i < |m| && 0 <= j < |m[i]|
        ensures HasMirror(m, i, j)
      {
        assert f(m[i][j], i, j).Ok?;
      }
    }
  }

  method MatTranspose<T>(m: seq<seq<T>>) returns (r: Result<seq<seq<T>>>)
    ensures r == Transpose(m)
  {
    var f := MirrorAt(m);
    var result := [];
    for i := 0 to |m|
      invariant VisitIndex(m[..i], f) == Ok(result)
    {
      assert m[..i + 1][..i] == m[..i];
      var row := [];
      for j := 0 to |m[i]|
        invariant VisitRow(m[i][..j], i, f) == Ok(row)
      {
        assert m[i][..j + 1][..j] == m[i][..j];
        if j >= |m| || i >= |m[j]| {
          assert f(m[i][j], i, j).Err?;
          VisitRowErrSticky(m[i], j + 1, i, f);
          assert m[i][..|m[i]|] == m[i];
          VisitIndexErrSticky(m, i + 1, f);
          return Err(IndexError);
        }
        row := row + [m[j][i]];
      }
      assert m[i][..|m[i]|] == m[i];
      result := result + [row];
    }
    assert m[..|m|] == m;
    return Ok(result);
  }

  /** On a square matrix the transpose is the true one, the same as the
      transpose of util/GenMath.py. */
  lemma TransposeSquare<T>(m: seq<seq<T>>)
    requires IsSquare(m)
    ensures Transpose(m).Ok? && Transpose(m) == GenMath.Transpose(m)
  {
    forall i, j | 0 <= i < |m| && 0 <= j < |m[i]|
      ensures HasMirror(m, i, j)
    {
      assert |m[j]| == |m|;
    }
    var t := Transpose(m);
    var u := GenMath.Transpose(m);
    assert t.Ok?;
    assert u.Ok?;
    if |m| > 0 {
      assert |u.value| == |m[0]| == |m|;
      forall i | 0 <= i < |m|
        ensures t.value[i] == u.value[i]
      {
        assert |t.value[i]| == |u.value[i]|;
        forall j | 0 <= j < |m|
          ensures t.value[i][j] == u.value[i][j]
        {
          assert t.value[i][j] == m[j][i];
        }
      }
      assert t.value == u.value;
    }
  }

  /** On a rectangular matrix that is not square it raises IndexError:
      with more columns than rows the first row reaches past the last row,
      with more rows than columns the first column reaches past the first
      row. */
  lemma TransposeNotSquare<T>(m: seq<seq<T>>, cols: nat)
    requires |m| > 0 && cols > 0 && IsRectangular(m, cols) && cols != |m|
    ensures Transpose(m) == Err(IndexError)
  {
    if cols > |m| {
      assert !(|m| < |m|);
    } else {
      assert |m[0]| == cols;
      assert 0 <= cols < |m| && 0 <= 0 < |m[cols]|;
    }
  }

  /** Row `i` of `matIsEqual` from column `j` on: a position missing from
      `rhs` raises IndexError, the first difference returns false. */
  function RowEqual(row: seq<Expr>, rhs: Matrix, i: nat, j: nat): (r: Result<bool>)
    decreases |row| - j
  {
    if j >= |row| then Ok(true)
    else if i >= |rhs| || j >= |rhs[i]| then Err(IndexError)
    else if row[j] != rhs[i][j] then Ok(false)
    else RowEqual(row, rhs, i, j + 1)
  }

  /** `matIsEqual` from row `i` on. */
  function EqualFrom(lhs: Matrix, rhs: Matrix, i: nat): (r: Result<bool>)
    decreases |lhs| - i
  {
    if i >= |lhs| then Ok(true)
    else
      match RowEqual(lhs[i], rhs, i, 0)
      case Err(e) => Err(e)
      case Ok(same) => if same then EqualFrom(lhs, rhs, i + 1) else Ok(false)
  }

  /** `matIsEqual`: the positions of `lhs`, row by row. */
  function IsEqual(lhs: Matrix, rhs: Matrix): Result<bool> {
    EqualFrom(lhs, rhs, 0)
  }

  method MatIsEqual(lhs: Matrix, rhs: Matrix) returns (r: Result<bool>)
    ensures r == IsEqual(lhs, rhs)
  {
    for i := 0 to |lhs|
      invariant IsEqual(lhs, rhs) == EqualFrom(lhs, rhs, i)
    {
      for j := 0 to |lhs[i]|
        invariant RowEqual(lhs[i], rhs, i, 0) == RowEqual(lhs[i], rhs, i, j)
      {
        if i >= |rhs| || j >= |rhs[i]| {
          return Err(IndexError);
        }
        if lhs[i][j] != rhs[i][j] {
          return Ok(false);
        }
      }
    }
    return Ok(true);
  }

  /** The call returned True. */
  predicate IsTrue(r: Result<bool>) {
    r.Ok? && r.value
  }

  /** Position (i, j) of `rhs` exists and holds `row[j]`. */
  predicate SameAt(row: seq<Expr>, rhs: Matrix, i: int, j: int)
    requires 0 <= j < |row|
  {
    0 <= i < |rhs| && j < |rhs[i]| && row[j] == rhs[i][j]
  }

  /** Every position of `lhs` is a position of `rhs` holding the same
      entry; `rhs` may have more rows and longer rows. */
  predicate Covers(lhs: Matrix, rhs: Matrix) {
    forall i, j :: 0 <= i < |lhs| && 0 <= j < |lhs[i]| ==> SameAt(lhs[i], rhs, i, j)
  }

  /** `matIsEqual` is true exactly when `lhs` is covered by `rhs`, and the
      only exception it raises is IndexError. */
  lemma IsEqualCovers(lhs: Matrix, rhs: Matrix)
    ensures IsTrue(IsEqual(lhs, rhs)) <==> Covers(lhs, rhs)
    ensures IsEqual(lhs, rhs).Err? ==> IsEqual(lhs, rhs).error == IndexError
  {
    EqualFromCovers(lhs, rhs, 0);
  }

  lemma {:induction false} EqualFromCovers(lhs: Matrix, rhs: Matrix, i: nat)
    ensures IsTrue(EqualFrom(lhs, rhs, i)) <==>
      forall p, q :: i <= p < |lhs| && 0 <= q < |lhs[p]| ==> SameAt(lhs[p], rhs, p, q)
    ensures EqualFrom(lhs, rhs, i).Err? ==> EqualFrom(lhs, rhs, i).error == IndexError
    decreases |lhs| - i
  {
    if i < |lhs| {
      RowEqualCovers(lhs[i], rhs, i, 0);
      EqualFromCovers(lhs, rhs, i + 1);
    }
  }

  lemma {:induction false} RowEqualCovers(row: seq<Expr>, rhs: Matrix, i: nat, j: nat)
    ensures IsTrue(RowEqual(row, rhs, i, j)) <==> forall q :: j <= q < |row| ==> SameAt(row, rhs, i, q)
    ensures RowEqual(row, rhs, i, j).Err? ==> RowEqual(row, rhs, i, j).error == IndexError
    decreases |row| - j
  {
    if j < |row| {
      RowEqualCovers(row, rhs, i, j + 1);
      assert RowEqual(row, rhs, i, j) ==
        if SameAt(row, rhs, i, j) then RowEqual(row, rhs, i, j + 1) else RowEqual(row, rhs, i, j);
    }
  }

  /** On matrices of the same shape `matIsEqual` is equality; without a
      length check, every matrix is "equal" to a larger one it is the
      top-left corner of, and the empty matrix to every matrix. */
  lemma IsEqualSameShape(lhs: Matrix, rhs: Matrix)
    requires |lhs| == |rhs| && forall i :: 0 <= i < |lhs| ==> |lhs[i]| == |rhs[i]|
    ensures IsTrue(IsEqual(lhs, rhs)) <==> lhs == rhs
  {
    IsEqualCovers(lhs, rhs);
    if Covers(lhs, rhs) {
      forall i | 0 <= i < |lhs|
        ensures lhs[i] == rhs[i]
      {
        forall j | 0 <= j < |lhs[i]|
          ensures lhs[i][j] == rhs[i][j]
        {
          assert SameAt(lhs[i], rhs, i, j);
        }
      }
    }
  }

  lemma IsEqualNoLengthCheck(rhs: Matrix)
    ensures IsTrue(IsEqual([], rhs))
    ensures IsTrue(IsEqual([[Num(1.0)]], [[Num(1.0), Num(2.0)], [Num(3.0), Num(4.0)]]))
  {
    IsEqualCovers([[Num(1.0)]], [[Num(1.0), Num(2.0)], [Num(3.0), Num(4.0)]]);
  }

  function Divider(scalar: Expr): Expr -> Expr {
    x => Div(x, scalar)
  }

  function Multiplier(scalar: Expr): Expr -> Expr {
    x => Mul(x, scalar)
  }

  /** `matScalarDivide`: every entry wrapped in `Divide(entry, scalar)`,
      with no test of the scalar. */
  function ScalarDivide(lhs: Matrix, rhs: Expr): (r: Matrix)
    ensures |r| == |lhs| && forall i :: 0 <= i < |lhs| ==> |r[i]| == |lhs[i]|
    ensures forall i, j :: 0 <= i < |lhs| && 0 <= j < |lhs[i]| ==> r[i][j] == Div(lhs[i][j], rhs)
  {
    MapMatrix(lhs, Divider(rhs))
  }

  /** `matScalarMultiply`: every entry wrapped in `Multiply(entry, scalar)`. */
  function ScalarMultiply(lhs: Matrix, rhs: Expr): (r: Matrix)
    ensures |r| == |lhs| && forall i :: 0 <= i < |lhs| ==> |r[i]| == |lhs[i]|
    ensures forall i, j :: 0 <= i < |lhs| && 0 <= j < |lhs[i]| ==> r[i][j] == Mul(lhs[i][j], rhs)
  {
    MapMatrix(lhs, Multiplier(rhs))
  }

  /** Multiplying a matrix of numbers by c and dividing by c again
      simplifies back to the matrix when c is not 0; with c = 0 nothing
      stops the division, and simplifying raises ZeroDivisionError at the
      first entry. */
  lemma ScalarRoundTrip(m: Matrix, c: real)
    requires IsNumberMatrix(m)
    ensures c != 0.0 ==> MatSimplify(ScalarDivide(ScalarMultiply(m, Num(c)), Num(c))) == Ok(m)
    ensures c == 0.0 && |m| > 0 && |m[0]| > 0 ==>
      MatSimplify(ScalarDivide(ScalarMultiply(m, Num(c)), Num(c))) == Err(ZeroDivisionError)
  {
    var q := ScalarDivide(ScalarMultiply(m, Num(c)), Num(c));
    if c != 0.0 {
      forall i, j | 0 <= i < |m| && 0 <= j < |m[i]|
        ensures Simplify(q[i][j]) == Ok(m[i][j])
      {
        assert q[i][j] == Div(Mul(m[i][j], Num(c)), Num(c));
        ScaleRoundTrip(m[i][j].n, c);
      }
      var s := MatSimplify(q);
      assert s.Ok?;
      forall i | 0 <= i < |m|
        ensures s.value[i] == m[i]
      {
        assert |s.value[i]| == |m[i]|;
      }
      assert s.value == m;
    } else if |m| > 0 && |m[0]| > 0 {
      assert q[0][0] == Div(Mul(m[0][0], Num(c)), Num(c));
      assert Simplify(q[0][0]) == Err(ZeroDivisionError);
      VisitFirstErr(q, Simplify);
    }
  }

  lemma ScaleRoundTrip(x: real, c: real)
    requires c != 0.0
    ensures Simplify(Div(Mul(Num(x), Num(c)), Num(c))) == Ok(Num(x))
  {
    var env: Valuation := (a, b, name) => 0.0;
    var e := Div(Mul(Num(x), Num(c)), Num(c));
    SimplifyExact(e, env);
    EvalOperands(Mul(Num(x), Num(c)), env, x, c);
    assert Eval(e, env) == EvalBinary(e, Ok(x * c), Ok(c));
    assert Eval(e, env).value == (x * c) / c == x;
  }

  /** One entry of the first step of `matInverse`:
      `Multiply(m[i][j], det(minor(m, i, j)))`. */
  function Product(m: Matrix, x: Expr, i: int, j: int): Result<Expr> {
    match Det(Minor(m, i, j))
    case Err(e) => Err(e)
    case Ok(d) => Ok(Mul(x, d))
  }

  function ProductAt(m: Matrix): (Expr, int, int) -> Result<Expr> {
    (x, i, j) => Product(m, x, i, j)
  }

  /** The first step of `matInverse`, row by row. */
  function Products(m: Matrix): (r: Result<Matrix>)
    ensures r.Ok? <==> forall i, j :: 0 <= i < |m| && 0 <= j < |m[i]| ==> Product(m, m[i][j], i, j).Ok?
    ensures r.Ok? ==> |r.value| == |m| && forall i :: 0 <= i < |m| ==> |r.value[i]| == |m[i]|
    ensures r.Ok? ==> forall i, j :: 0 <= i < |m| && 0 <= j < |m[i]| ==> r.value[i][j] == Product(m, m[i][j], i, j).value
  {
    var f := ProductAt(m);
    assert forall i, j :: 0 <= i < |m| && 0 <= j < |m[i]| ==> f(m[i][j], i, j) == Product(m, m[i][j], i, j);
    VisitIndex(m, f)
  }

  /** `matInverse`: ValueError for a matrix that is not square; then every
      entry times the determinant of its minor, cofactor signs, the
      transpose, and every entry divided by the determinant tree. There is
      no test for a zero determinant. */
  function Inverse(m: Matrix): Result<Matrix> {
    if Rank(m) == -1 then Err(ValueError)
    else
      match Products(m)
      case Err(e) => Err(e)
      case Ok(p) =>
        match Transpose(CofactorSigns(p))
        case Err(e) => Err(e)
        case Ok(t) =>
          match Det(m)
          case Err(e) => Err(e)
          case Ok(d) => Ok(ScalarDivide(t, d))
  }

  method MatInverse(m: Matrix) returns (r: Result<Matrix>)
    ensures r == Inverse(m)
  {
    var rank := MatRank(m);
    if rank == -1 {
      return Err(ValueError);
    }
    var products := MatProducts(m);
    if products.Err? {
      return Err(products.error);
    }
    var signed := MatCofactorSigns(products.value);
    var transposed := MatTranspose(signed);
    if transposed.Err? {
      return Err(transposed.error);
    }
    var det := MatDeterminant(m);
    if det.Err? {
      return Err(det.error);
    }
    r := Ok(ScalarDivide(transposed.value, det.value));
  }

  /** The first loop of `matInverse`, row by row. */
  method MatProducts(m: Matrix) returns (r: Result<Matrix>)
    ensures r == Products(m)
  {
    var f := ProductAt(m);
    var products := [];
    for i := 0 to |m|
      invariant VisitIndex(m[..i], f) == Ok(products)
    {
      var row := ProductRow(m, i);
      VisitIndexStep(m, i, f, products);
      if row.Err? {
        VisitIndexErrSticky(m, i + 1, f);
        return Err(row.error);
      }
      products := products + [row.value];
    }
    assert m[..|m|] == m;
    return Ok(products);
  }

  /** Row i of the first loop of `matInverse`: each entry times the
      determinant of its minor, stopping at the first exception. */
  method ProductRow(m: Matrix, i: int) returns (r: Result<seq<Expr>>)
    requires 0 <= i < |m|
    ensures r == VisitRow(m[i], i, ProductAt(m))
  {
    var f := ProductAt(m);
    var row := [];
    for j := 0 to |m[i]|
      invariant VisitRow(m[i][..j], i, f) == Ok(row)
    {
      var x := ProductOf(m, i, j);
      assert f(m[i][j], i, j) == x;
      VisitRowStep(m[i], j, i, f, row);
      if x.Err? {
        VisitRowErrSticky(m[i], j + 1, i, f);
        assert m[i][..|m[i]|] == m[i];
        return Err(x.error);
      }
      row := row + [x.value];
    }
    assert m[i][..|m[i]|] == m[i];
    return Ok(row);
  }

  /** One step of the first loop of `matInverse`: the entry times the
      determinant of its minor. */
  method ProductOf(m: Matrix, i: int, j: int) returns (r: Result<Expr>)
    requires 0 <= i < |m| && 0 <= j < |m[i]|
    ensures r == Product(m, m[i][j], i, j)
  {
    var minor := MatMinor(m, i, j);
    var minorDet := MatDeterminant(minor);
    if minorDet.Err? {
      return Err(minorDet.error);
    }
    return Ok(Mul(m[i][j], minorDet.value));
  }

  /** `matInverse` succeeds exactly on square matrices of size at least 2:
      a matrix that is not square raises ValueError, and the empty and the
      1-by-1 matrix raise IndexError (the determinant of an empty minor, or
      of the empty matrix itself, reads a first row that is not there). */
  lemma InverseOk(m: Matrix)
    ensures Inverse(m).Ok? <==> IsSquare(m) && |m| >= 2
    ensures Inverse(m).Err? ==> Inverse(m).error == (if IsSquare(m) then IndexError else ValueError)
  {
    if IsSquare(m) && |m| >= 2 {
      var inv, p := InverseEntries(m);
    } else if IsSquare(m) && |m| == 1 {
      assert Minor(m, 0, 0) == [];
      assert Product(m, m[0][0], 0, 0) == Err(IndexError);
      ProductsErr(m);
    } else if IsSquare(m) {
      assert Products(m) == Ok([]);
      assert CofactorSigns([]) == [];
    }
  }

  /** On a square matrix the first step can only raise IndexError. */
  lemma ProductsErr(m: Matrix)
    requires IsSquare(m)
    ensures Products(m).Err? ==> Products(m).error == IndexError
  {
    var f := ProductAt(m);
    forall i, j | 0 <= i < |m| && 0 <= j < |m[i]| && f(m[i][j], i, j).Err?
      ensures f(m[i][j], i, j).error == IndexError
    {
      MinorSquare(m, i, j);
    }
    VisitIndexErrKind(m, f, IndexError);
  }

  /** From size 2 on, entry (i, j) of the inverse is the product
      `p[j][i] = m[j][i] * det(minor(m, j, i))`, negated when i + j is odd,
      divided by the determinant tree. */
  lemma InverseEntries(m: Matrix) returns (inv: Matrix, p: Matrix)
    requires IsSquare(m) && |m| >= 2
    ensures Inverse(m) == Ok(inv) && IsSquare(inv) && |inv| == |m|
    ensures Products(m) == Ok(p) && IsSquare(p) && |p| == |m|
    ensures forall i, j :: 0 <= i < |m| && 0 <= j < |m| ==> Det(Minor(m, i, j)).Ok?
    ensures forall i, j :: 0 <= i < |m| && 0 <= j < |m| ==> p[i][j] == Mul(m[i][j], Det(Minor(m, i, j)).value)
    ensures forall i, j :: 0 <= i < |m| && 0 <= j < |m| ==> inv[i][j] == Div(SignedEntry(p[j][i], j, i), Det(m).value)
  {
    p := ProductsSquare(m);
    var t := SignedTranspose(m, p);
    DetIsNode(m);
    var d := Det(m).value;
    InverseSteps(m, p, t, d);
    inv := DivideSigned(m, p, t, d);
  }

  /** `Inverse` once each of its steps is known to succeed. */
  lemma InverseSteps(m: Matrix, p: Matrix, t: Matrix, d: Expr)
    requires Rank(m) != -1 && Products(m) == Ok(p) && Transpose(CofactorSigns(p)) == Ok(t) && Det(m) == Ok(d)
    ensures Inverse(m) == Ok(ScalarDivide(t, d))
  {
  }

  lemma DivideSigned(m: Matrix, p: Matrix, t: Matrix, d: Expr) returns (inv: Matrix)
    requires IsSquare(p) && |p| == |m| && IsSquare(t) && |t| == |m|
    requires forall i, j :: 0 <= i < |m| && 0 <= j < |m| ==> t[i][j] == SignedEntry(p[j][i], j, i)
    ensures inv == ScalarDivide(t, d) && IsSquare(inv) && |inv| == |m|
    ensures forall i, j :: 0 <= i < |m| && 0 <= j < |m| ==> inv[i][j] == Div(SignedEntry(p[j][i], j, i), d)
  {
    inv := ScalarDivide(t, d);
  }

  /** The first step on a square matrix of size at least 2 succeeds. */
  lemma ProductsSquare(m: Matrix) returns (p: Matrix)
    requires IsSquare(m) && |m| >= 2
    ensures Products(m) == Ok(p) && IsSquare(p) && |p| == |m|
    ensures forall i, j :: 0 <= i < |m| && 0 <= j < |m| ==> Det(Minor(m, i, j)).Ok?
    ensures forall i, j :: 0 <= i < |m| && 0 <= j < |m| ==> p[i][j] == Mul(m[i][j], Det(Minor(m, i, j)).value)
  {
    forall i, j | 0 <= i < |m| && 0 <= j < |m|
      ensures Det(Minor(m, i, j)).Ok? && Product(m, m[i][j], i, j).Ok?
    {
      MinorSquare(m, i, j);
    }
    p := Products(m).value;
  }

  /** The signs and the transpose applied to the products. */
  lemma SignedTranspose(m: Matrix, p: Matrix) returns (t: Matrix)
    requires IsSquare(m) && |m| >= 2 && IsSquare(p) && |p| == |m|
    ensures Transpose(CofactorSigns(p)) == Ok(t) && IsSquare(t) && |t| == |m|
    ensures forall i, j :: 0 <= i < |m| && 0 <= j < |m| ==> t[i][j] == SignedEntry(p[j][i], j, i)
  {
    var c := CofactorSigns(p);
    assert IsSquare(c) && |c| == |m|;
    TransposeSquare(c);
    t := Transpose(c).value;
    forall i, j | 0 <= i < |m| && 0 <= j < |m|
      ensures t[i][j] == SignedEntry(p[j][i], j, i)
    {
      assert HasMirror(c, i, j) && t[i][j] == c[j][i];
    }
  }

  /** From size 2 on, the determinant is an operator node. */
  lemma DetIsNode(m: Matrix)
    requires IsSquare(m) && |m| >= 2
    ensures Det(m).Ok?
  {
    assert Rank(m) == |m|;
  }

  /** What the numerator of an inverse entry computes on a real matrix: the
      entry itself times the determinant of its minor, negated when i + j
      is odd. */
  function SignedProduct(a: seq<seq<real>>, i: int, j: int): real
    requires IsSquare(a) && |a| >= 2 && 0 <= i < |a| && 0 <= j < |a|
  {
    if (i + j) % 2 == 0 then EntryTimesMinor(a, i, j) else -EntryTimesMinor(a, i, j)
  }

  /** An entry times the determinant of its minor. */
  function EntryTimesMinor(a: seq<seq<real>>, i: int, j: int): real
    requires IsSquare(a) && |a| >= 2 && 0 <= i < |a| && 0 <= j < |a|
  {
    a[i][j] * MinorDet(a, i, j)
  }

  lemma EntryTimesMinorUnfold(a: seq<seq<real>>, i: int, j: int)
    requires IsSquare(a) && |a| >= 2 && 0 <= i < |a| && 0 <= j < |a|
    ensures EntryTimesMinor(a, i, j) == a[i][j] * MinorDet(a, i, j)
  {
  }

  /** Under every valuation, entry (i, j) of the inverse of a matrix of
      numbers and symbols evaluates to the transposed entry (j, i) times the
      determinant of its minor, with the cofactor sign, over the
      determinant of the valued matrix, and raises ZeroDivisionError
      exactly when that determinant is 0. */
  lemma InverseEval(m: Matrix, env: Valuation, i: int, j: int)
    requires IsSquare(m) && |m| >= 2 && IsLeafMatrix(m) && 0 <= i < |m| && 0 <= j < |m|
    ensures Inverse(m).Ok? && IsSquare(Inverse(m).value) && |Inverse(m).value| == |m|
    ensures IsSquare(Values(m, env)) && |Values(m, env)| == |m|
    ensures IsSquare(Minor(Values(m, env), j, i)) && |Minor(Values(m, env), j, i)| == |m| - 1
    ensures IsNumberMatrix(m) ==> IsGround(Inverse(m).value[i][j])
    ensures Eval(Inverse(m).value[i][j], env).Ok? <==> RealMatrix.Det(Values(m, env)) != 0.0
    ensures Eval(Inverse(m).value[i][j], env).Err? ==> Eval(Inverse(m).value[i][j], env).error == ZeroDivisionError
    ensures Eval(Inverse(m).value[i][j], env).Ok? ==>
      Eval(Inverse(m).value[i][j], env).value ==
        SignedProduct(Values(m, env), j, i) / RealMatrix.Det(Values(m, env))
  {
    var inv, p := InverseEntries(m);
    DetEval(m, env);
    NumeratorEval(m, env, j, i, p[j][i]);
    var top := SignedEntry(p[j][i], j, i);
    QuotientEval(top, Det(m).value, env, Eval(top, env).value, RealMatrix.Det(Values(m, env)));
  }

  /** The inverse of the identity, simplified, is the identity, from size
      2 on, and `matIsEqual` accepts it. */
  lemma InverseIdentity(n: nat)
    requires n >= 2
    ensures Inverse(Identity(n)).Ok?
    ensures MatSimplify(Inverse(Identity(n)).value) == Ok(Identity(n))
    ensures IsTrue(IsEqual(MatSimplify(Inverse(Identity(n)).value).value, Identity(n)))
  {
    SimplifiedInverseIdentity(n);
    IsEqualSameShape(Identity(n), Identity(n));
  }

  lemma SimplifiedInverseIdentity(n: nat)
    requires n >= 2
    ensures Inverse(Identity(n)).Ok?
    ensures MatSimplify(Inverse(Identity(n)).value) == Ok(Identity(n))
  {
    var inv := InverseIdentityEntries(n);
    MatSimplifyTo(inv, Identity(n));
  }

  /** Every entry of the inverse of the identity simplifies to the matching
      identity entry. */
  lemma InverseIdentityEntries(n: nat) returns (inv: Matrix)
    requires n >= 2
    ensures Inverse(Identity(n)) == Ok(inv) && |inv| == |Identity(n)| && forall i :: 0 <= i < |inv| ==> |inv[i]| == |Identity(n)[i]|
    ensures forall i, j :: 0 <= i < |inv| && 0 <= j < |inv[i]| ==> Simplify(inv[i][j]) == Ok(Identity(n)[i][j])
  {
    InverseShape(Identity(n));
    inv := Inverse(Identity(n)).value;
    forall i, j | 0 <= i < |inv| && 0 <= j < |inv[i]|
      ensures Simplify(inv[i][j]) == Ok(Identity(n)[i][j])
    {
      InverseIdentityEntry(n, i, j);
    }
  }

  /** From size 2 on, the inverse of a square matrix is square. */
  lemma InverseShape(m: Matrix)
    requires IsSquare(m) && |m| >= 2
    ensures Inverse(m).Ok? && IsSquare(Inverse(m).value) && |Inverse(m).value| == |m|
  {
    var inv, p := InverseEntries(m);
  }

  lemma InverseIdentityEntry(n: nat, i: int, j: int)
    requires n >= 2 && 0 <= i < n && 0 <= j < n
    ensures Inverse(Identity(n)).Ok? && |Inverse(Identity(n)).value| == n && |Inverse(Identity(n)).value[i]| == n
    ensures Simplify(Inverse(Identity(n)).value[i][j]) == Ok(Identity(n)[i][j])
  {
    var env: Valuation := (a, b, name) => 0.0;
    IdentityEntryEval(n, env, i, j);
    SimplifyExact(Inverse(Identity(n)).value[i][j], env);
    assert Identity(n)[i][j] == Num(if i == j then 1.0 else 0.0);
  }

  lemma IdentityEntryEval(n: nat, env: Valuation, i: int, j: int)
    requires n >= 2 && 0 <= i < n && 0 <= j < n
    ensures Inverse(Identity(n)).Ok? && |Inverse(Identity(n)).value| == n && |Inverse(Identity(n)).value[i]| == n
    ensures IsGround(Inverse(Identity(n)).value[i][j])
    ensures Eval(Inverse(Identity(n)).value[i][j], env).Ok?
    ensures Eval(Inverse(Identity(n)).value[i][j], env).value == if i == j then 1.0 else 0.0
  {
    assert IsNumberMatrix(Identity(n)) && IsLeafMatrix(Identity(n));
    SignedProductIdentity(n, env, i, j);
    assert IsLeafMatrix(Identity(n));
    EntryValue(Identity(n), env, i, j, if i == j then 1.0 else 0.0, 1.0);
  }

  /** An inverse entry, once the signed numerator and the determinant of
      the valued matrix are known numbers. */
  lemma EntryValue(m: Matrix, env: Valuation, i: int, j: int, v: real, d: real)
    requires IsSquare(m) && |m| >= 2 && IsLeafMatrix(m) && 0 <= i < |m| && 0 <= j < |m|
    requires IsSquare(Values(m, env)) && |Values(m, env)| == |m|
    requires IsSquare(Minor(Values(m, env), j, i)) && |Minor(Values(m, env), j, i)| == |m| - 1
    requires RealMatrix.Det(Values(m, env)) == d && d != 0.0
    requires SignedProduct(Values(m, env), j, i) == v
    ensures Inverse(m).Ok? && |Inverse(m).value| == |m| && |Inverse(m).value[i]| == |m|
    ensures IsNumberMatrix(m) ==> IsGround(Inverse(m).value[i][j])
    ensures Eval(Inverse(m).value[i][j], env).Ok? && Eval(Inverse(m).value[i][j], env).value == v / d
  {
    InverseEval(m, env, i, j);
  }


  /** The legacy numerator on the identity: the diagonal entry times a
      minor of determinant 1, and 0 off the diagonal; the determinant is 1. */
  lemma SignedProductIdentity(n: nat, env: Valuation, i: int, j: int)
    requires n >= 2 && 0 <= i < n && 0 <= j < n
    ensures IsSquare(Values(Identity(n), env)) && |Values(Identity(n), env)| == n
    ensures IsSquare(Minor(Values(Identity(n), env), j, i)) && |Minor(Values(Identity(n), env), j, i)| == n - 1
    ensures RealMatrix.Det(Values(Identity(n), env)) == 1.0
    ensures SignedProduct(Values(Identity(n), env), j, i) == if i == j then 1.0 else 0.0
  {
    ValuesIdentity(n, env);
    RealMatrix.DetIdentity(n);
    RealMatrix.DetMinorIdentity(n, j, i);
    if i == j {
      assert (j + i) % 2 == 0;
    } else {
      RealMatrix.ProductWithZero(RealMatrix.Identity(n)[j][i], RealMatrix.Det(Minor(RealMatrix.Identity(n), j, i)));
    }
  }

  /** The diagonal matrix [[x, 0], [0, y]]. */
  function Diagonal(x: real, y: real): Matrix {
    [[Num(x), Num(0.0)], [Num(0.0), Num(y)]]
  }

  /** The legacy inverse of an invertible diagonal matrix [[x, 0], [0, y]]
      simplifies to the identity, because each numerator carries the extra
      factor `m[j][i]`; the inverse of util/GenMath.py simplifies to the
      true inverse [[1/x, 0], [0, 1/y]]. */
  lemma DiagonalInverse(x: real, y: real)
    requires x != 0.0 && y != 0.0
    ensures Inverse(Diagonal(x, y)).Ok?
    ensures MatSimplify(Inverse(Diagonal(x, y)).value) == Ok(Identity(2))
    ensures GenMath.Inverse(Diagonal(x, y)).Ok?
    ensures GenMath.MatSimplify(GenMath.Inverse(Diagonal(x, y)).value) ==
      Ok([[Num(1.0 / x), Num(0.0)], [Num(0.0), Num(1.0 / y)]])
  {
    LegacyDiagonalInverse(x, y);
    UtilDiagonalInverse(x, y);
  }

  lemma LegacyDiagonalInverse(x: real, y: real)
    requires x != 0.0 && y != 0.0
    ensures Inverse(Diagonal(x, y)).Ok?
    ensures MatSimplify(Inverse(Diagonal(x, y)).value) == Ok(Identity(2))
  {
    var inv := LegacyDiagonalEntries(x, y);
    MatSimplifyTo(inv, Identity(2));
  }

  /** Every entry of the older inverse of [[x, 0], [0, y]] simplifies to the
      matching identity entry. */
  lemma LegacyDiagonalEntries(x: real, y: real) returns (inv: Matrix)
    requires x != 0.0 && y != 0.0
    ensures Inverse(Diagonal(x, y)) == Ok(inv) && |inv| == 2 && |inv[0]| == 2 && |inv[1]| == 2
    ensures forall i, j :: 0 <= i < 2 && 0 <= j < 2 ==> Simplify(inv[i][j]) == Ok(Identity(2)[i][j])
  {
    DiagonalLegacyEntry(x, y, 0, 0);
    inv := Inverse(Diagonal(x, y)).value;
    forall i, j | 0 <= i < 2 && 0 <= j < 2
      ensures Simplify(inv[i][j]) == Ok(Identity(2)[i][j])
    {
      DiagonalLegacyEntry(x, y, i, j);
    }
  }

  lemma UtilDiagonalInverse(x: real, y: real)
    requires x != 0.0 && y != 0.0
    ensures GenMath.Inverse(Diagonal(x, y)).Ok?
    ensures GenMath.MatSimplify(GenMath.Inverse(Diagonal(x, y)).value) ==
      Ok([[Num(1.0 / x), Num(0.0)], [Num(0.0), Num(1.0 / y)]])
  {
    var util := UtilDiagonalEntries(x, y);
    SimplifyTwoByTwo(util, Num(1.0 / x), Num(0.0), Num(0.0), Num(1.0 / y));
  }

  /** A 2-by-2 matrix whose entries simplify one by one simplifies as a whole. */
  lemma SimplifyTwoByTwo(m: Matrix, a: Expr, b: Expr, c: Expr, d: Expr)
    requires |m| == 2 && |m[0]| == 2 && |m[1]| == 2
    requires GenMath.Simplify(m[0][0]) == Ok(a) && GenMath.Simplify(m[0][1]) == Ok(b)
    requires GenMath.Simplify(m[1][0]) == Ok(c) && GenMath.Simplify(m[1][1]) == Ok(d)
    ensures GenMath.MatSimplify(m) == Ok([[a, b], [c, d]])
  {
    var t := [[a, b], [c, d]];
    forall i, j | 0 <= i < 2 && 0 <= j < 2
      ensures GenMath.Simplify(m[i][j]) == Ok(t[i][j])
    {
    }
    GenMath.MatSimplifyTo(m, t);
  }

  /** Every entry of the newer inverse of [[x, 0], [0, y]] simplifies to the
      matching entry of [[1/x, 0], [0, 1/y]]. */
  lemma UtilDiagonalEntries(x: real, y: real) returns (util: Matrix)
    requires x != 0.0 && y != 0.0
    ensures GenMath.Inverse(Diagonal(x, y)) == Ok(util) && |util| == 2 && |util[0]| == 2 && |util[1]| == 2
    ensures GenMath.Simplify(util[0][0]) == Ok(Num(1.0 / x)) && GenMath.Simplify(util[0][1]) == Ok(Num(0.0))
    ensures GenMath.Simplify(util[1][0]) == Ok(Num(0.0)) && GenMath.Simplify(util[1][1]) == Ok(Num(1.0 / y))
  {
    DiagonalUtilEntry(x, y, 0, 0);
    DiagonalUtilEntry(x, y, 0, 1);
    DiagonalUtilEntry(x, y, 1, 0);
    DiagonalUtilEntry(x, y, 1, 1);
    util := GenMath.Inverse(Diagonal(x, y)).value;
  }

  lemma DiagonalLegacyEntry(x: real, y: real, i: int, j: int)
    requires x != 0.0 && y != 0.0 && 0 <= i < 2 && 0 <= j < 2
    ensures Inverse(Diagonal(x, y)).Ok? && |Inverse(Diagonal(x, y)).value| == 2 && |Inverse(Diagonal(x, y)).value[i]| == 2
    ensures Simplify(Inverse(Diagonal(x, y)).value[i][j]) == Ok(Identity(2)[i][j])
  {
    var env := GenMath.Unvalued;
    DiagonalReal(x, y, env, i, j);
    assert IsLeafMatrix(Diagonal(x, y)) && IsNumberMatrix(Diagonal(x, y));
    DiagonalLegacyEntryOf(Diagonal(x, y), env, x, y, i, j);
    assert Identity(2)[i][j] == Num(if i == j then 1.0 else 0.0);
  }

  /** `DiagonalLegacyEntry` for any 2-by-2 matrix of numbers whose values
      have determinant x * y and the signed products of [[x, 0], [0, y]]. */
  lemma DiagonalLegacyEntryOf(m: Matrix, env: Valuation, x: real, y: real, i: int, j: int)
    requires x != 0.0 && y != 0.0 && 0 <= i < 2 && 0 <= j < 2
    requires IsSquare(m) && |m| == 2 && IsLeafMatrix(m) && IsNumberMatrix(m)
    requires IsSquare(Values(m, env)) && |Values(m, env)| == 2
    requires IsSquare(Minor(Values(m, env), j, i)) && |Minor(Values(m, env), j, i)| == 1
    requires RealMatrix.Det(Values(m, env)) == x * y
    requires SignedProduct(Values(m, env), j, i) == if i == j then x * y else 0.0
    ensures Inverse(m).Ok? && |Inverse(m).value| == 2 && |Inverse(m).value[i]| == 2
    ensures Simplify(Inverse(m).value[i][j]) == Ok(Num(if i == j then 1.0 else 0.0))
  {
    LegacyQuotient(x, y, i == j);
    EntryValue(m, env, i, j, if i == j then x * y else 0.0, x * y);
    SimplifyExact(Inverse(m).value[i][j], env);
  }

  lemma DiagonalUtilEntry(x: real, y: real, i: int, j: int)
    requires x != 0.0 && y != 0.0 && 0 <= i < 2 && 0 <= j < 2
    ensures GenMath.Inverse(Diagonal(x, y)).Ok?
    ensures |GenMath.Inverse(Diagonal(x, y)).value| == 2 && |GenMath.Inverse(Diagonal(x, y)).value[i]| == 2
    ensures GenMath.Simplify(GenMath.Inverse(Diagonal(x, y)).value[i][j]) ==
      Ok(Num(if i != j then 0.0 else if i == 0 then 1.0 / x else 1.0 / y))
  {
    var env := GenMath.Unvalued;
    DiagonalReal(x, y, env, i, j);
    assert IsLeafMatrix(Diagonal(x, y)) && IsNumberMatrix(Diagonal(x, y));
    UtilEntryValue(Diagonal(x, y), env, i, j, if i != j then 0.0 else if i == 0 then y else x, x * y);
    UtilQuotient(x, y, i, j);
    GenMath.SimplifyGround(GenMath.Inverse(Diagonal(x, y)).value[i][j], env);
  }

  /** An inverse entry of util/GenMath.py, once the cofactor and the
      determinant of the valued matrix are known numbers. */
  lemma UtilEntryValue(m: Matrix, env: Valuation, i: int, j: int, c: real, d: real)
    requires IsSquare(m) && |m| >= 2 && IsLeafMatrix(m) && 0 <= i < |m| && 0 <= j < |m|
    requires IsSquare(Values(m, env)) && |Values(m, env)| == |m|
    requires RealMatrix.Det(Values(m, env)) == d && d != 0.0
    requires RealMatrix.Cofactor(Values(m, env), j, i) == c
    ensures GenMath.Inverse(m).Ok? && |GenMath.Inverse(m).value| == |m| && |GenMath.Inverse(m).value[i]| == |m|
    ensures IsNumberMatrix(m) ==> IsGround(GenMath.Inverse(m).value[i][j])
    ensures Eval(GenMath.Inverse(m).value[i][j], env).Ok? && Eval(GenMath.Inverse(m).value[i][j], env).value == c / d
  {
    GenMath.InverseEval(m, env, i, j);
  }

  lemma LegacyQuotient(x: real, y: real, same: bool)
    requires x != 0.0 && y != 0.0
    ensures (if same then x * y else 0.0) / (x * y) == if same then 1.0 else 0.0
  {
    assert x * y != 0.0;
  }

  lemma UtilQuotient(x: real, y: real, i: int, j: int)
    requires x != 0.0 && y != 0.0
    ensures (if i != j then 0.0 else if i == 0 then y else x) / (x * y) ==
      if i != j then 0.0 else if i == 0 then 1.0 / x else 1.0 / y
  {
    assert x * y != 0.0;
    assert y / (x * y) == 1.0 / x;
    assert x / (x * y) == 1.0 / y;
  }

  /** The real numbers behind [[x, 0], [0, y]]: determinant x * y, legacy
      numerators x * y on the diagonal and 0 off it, and cofactors y and x
      on the diagonal and 0 off it. */
  lemma DiagonalReal(x: real, y: real, env: Valuation, i: int, j: int)
    requires x != 0.0 && y != 0.0 && 0 <= i < 2 && 0 <= j < 2
    ensures IsSquare(Values(Diagonal(x, y), env)) && |Values(Diagonal(x, y), env)| == 2
    ensures IsSquare(Minor(Values(Diagonal(x, y), env), j, i)) && |Minor(Values(Diagonal(x, y), env), j, i)| == 1
    ensures RealMatrix.Det(Values(Diagonal(x, y), env)) == x * y != 0.0
    ensures SignedProduct(Values(Diagonal(x, y), env), j, i) == if i == j then x * y else 0.0
    ensures RealMatrix.Cofactor(Values(Diagonal(x, y), env), j, i) == if i != j then 0.0 else if i == 0 then y else x
  {
    DiagonalValues(x, y, env);
    MinorOfTwo([[x, 0.0], [0.0, y]], j, i);
  }

  lemma DiagonalValues(x: real, y: real, env: Valuation)
    ensures Values(Diagonal(x, y), env) == [[x, 0.0], [0.0, y]]
  {
    var a := Values(Diagonal(x, y), env);
    assert |a[0]| == 2 && a[0][0] == x && a[0][1] == 0.0;
    assert |a[1]| == 2 && a[1][0] == 0.0 && a[1][1] == y;
    assert a[0] == [x, 0.0] && a[1] == [0.0, y];
  }

  /** A minor of a 2-by-2 matrix is the 1-by-1 matrix of the opposite
      entry. */
  lemma MinorOfTwo(a: seq<seq<real>>, i: int, j: int)
    requires IsSquare(a) && |a| == 2 && 0 <= i < 2 && 0 <= j < 2
    ensures Minor(a, i, j) == [[a[1 - i][1 - j]]]
  {
    MinorSquare(a, i, j);
    MinorEntry(a, i, j, 0, 0);
    assert |Minor(a, i, j)[0]| == 1;
    assert Minor(a, i, j)[0] == [a[1 - i][1 - j]];
  }

  /** A division evaluates to the quotient of its operands' values, and
      raises ZeroDivisionError exactly when the divisor's value is 0. */
  lemma QuotientEval(top: Expr, bottom: Expr, env: Valuation, x: real, y: real)
    requires Eval(top, env).Ok? && Eval(top, env).value == x
    requires Eval(bottom, env).Ok? && Eval(bottom, env).value == y
    ensures Eval(Div(top, bottom), env).Ok? <==> y != 0.0
    ensures Eval(Div(top, bottom), env).Err? ==> Eval(Div(top, bottom), env).error == ZeroDivisionError
    ensures Eval(Div(top, bottom), env).Ok? ==> Eval(Div(top, bottom), env).value == x / y
  {
    assert Eval(Div(top, bottom), env) == EvalBinary(Div(top, bottom), Eval(top, env), Eval(bottom, env));
  }

  /** The numerator of an inverse entry, the signed product, evaluates to
      the entry times its cofactor. */
  lemma NumeratorEval(m: Matrix, env: Valuation, i: int, j: int, q: Expr)
    requires IsSquare(m) && |m| >= 2 && IsLeafMatrix(m) && 0 <= i < |m| && 0 <= j < |m|
    requires Det(Minor(m, i, j)).Ok? && q == Mul(m[i][j], Det(Minor(m, i, j)).value)
    ensures IsSquare(Values(m, env)) && |Values(m, env)| == |m|
    ensures IsSquare(Minor(Values(m, env), i, j)) && |Minor(Values(m, env), i, j)| == |m| - 1
    ensures IsNumberMatrix(m) ==> IsGround(SignedEntry(q, i, j))
    ensures Eval(SignedEntry(q, i, j), env).Ok?
    ensures Eval(SignedEntry(q, i, j), env).value == SignedProduct(Values(m, env), i, j)
  {
    ProductEval(m, env, i, j);
    SignedEval(q, env, i, j, Eval(q, env).value);
  }

  /** A signed entry evaluates to the entry's value, negated when i + j is
      odd. */
  lemma SignedEval(e: Expr, env: Valuation, i: int, j: int, x: real)
    requires Eval(e, env).Ok? && Eval(e, env).value == x
    ensures Eval(SignedEntry(e, i, j), env).Ok?
    ensures Eval(SignedEntry(e, i, j), env).value == if (i + j) % 2 == 0 then x else -x
    ensures IsGround(e) ==> IsGround(SignedEntry(e, i, j))
  {
  }

  /** `m[i][j] * det(minor(m, i, j))` evaluates to the entry times the
      determinant of the valued minor. */
  lemma ProductEval(m: Matrix, env: Valuation, i: int, j: int)
    requires IsSquare(m) && |m| >= 2 && IsLeafMatrix(m) && 0 <= i < |m| && 0 <= j < |m|
    ensures IsSquare(Values(m, env)) && |Values(m, env)| == |m|
    ensures Det(Minor(m, i, j)).Ok? && IsSquare(Minor(Values(m, env), i, j)) && |Minor(Values(m, env), i, j)| == |m| - 1
    ensures IsNumberMatrix(m) ==> IsGround(Mul(m[i][j], Det(Minor(m, i, j)).value))
    ensures Eval(Mul(m[i][j], Det(Minor(m, i, j)).value), env).Ok?
    ensures Eval(Mul(m[i][j], Det(Minor(m, i, j)).value), env).value == EntryTimesMinor(Values(m, env), i, j)
  {
    MinorSquare(m, i, j);
    MinorTreeEval(m, env, i, j);
    MinorDetUnfold(Values(m, env), i, j);
    ProductValue(m, env, i, j, Det(Minor(m, i, j)).value);
  }

  /** The arithmetic half of `ProductEval`, once the minor's tree is known. */
  lemma ProductValue(m: Matrix, env: Valuation, i: int, j: int, d: Expr)
    requires IsSquare(m) && |m| >= 2 && IsLeafMatrix(m) && 0 <= i < |m| && 0 <= j < |m|
    requires IsSquare(Values(m, env)) && |Values(m, env)| == |m|
    requires Eval(d, env) == Ok(MinorDet(Values(m, env), i, j))
    ensures Eval(Mul(m[i][j], d), env) == Ok(EntryTimesMinor(Values(m, env), i, j))
  {
    var a := Values(m, env);
    EntryTimesMinorUnfold(a, i, j);
    LeafEntryEval(m, env, i, j);
    var r := Eval(Mul(m[i][j], d), env);
    EvalOperands(Mul(m[i][j], d), env, a[i][j], MinorDet(a, i, j));
    assert r.value == EntryTimesMinor(a, i, j);
  }
}
