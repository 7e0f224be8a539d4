/** The parts of util/GenMath.py that differ from the legacy GenMath.py:
    operators whose `apply` short-cuts the neutral and absorbing elements,
    `simplify`, and the matrix operations built on top of the shared
    determinant (transpose, equality, product, cofactors, inverse, scalar
    division and multiplication, entry-wise simplification). */
module GenMath {
  import opened Python
  import opened Expressions
  import opened MatrixLists
  import opened Determinant
  import RealMatrix

  /** Python's `x == 0` on a value `simplify` produced: only a number can
      compare equal to 0 (a `MatrixElement` compares by identity). */
  predicate IsZero(e: Expr) {
    e.Num? && e.n == 0.0
  }

  /** Python's `x == 1`, likewise. */
  predicate IsOne(e: Expr) {
    e.Num? && e.n == 1.0
  }

  /** Plain Python arithmetic on two operands: numbers combine, anything
      else raises TypeError (neither `MatrixElement` nor the operator
      classes define arithmetic), and a number divided by 0 raises
      ZeroDivisionError. */
  function Arith(op: Expr, x: Expr, y: Expr): (r: Result<Expr>)
    requires op.Add? || op.Sub? || op.Mul? || op.Div?
    ensures r.Ok? ==> r.value.Num?
    ensures r.Err? ==> r.error == (if x.Num? && y.Num? then ZeroDivisionError else TypeError)
  {
    if x.Num? && y.Num? then
      match EvalBinary(op, Ok(x.n), Ok(y.n))
      case Err(e) => Err(e)
      case Ok(v) => Ok(Num(v))
    else Err(TypeError)
  }

  /** `Negate.apply`: 0 stays as it is, a number is negated, anything else
      raises TypeError. */
  function NegateApply(x: Expr): (r: Result<Expr>)
    ensures r.Ok? <==> x.Num?
    ensures r.Err? ==> r.error == TypeError
  {
    if IsZero(x) then Ok(x)
    else if x.Num? then Ok(Num(-x.n))
    else Err(TypeError)
  }

  /** `apply` of the four binary operators, with their short cuts:
      `Add` drops a 0 operand, `Subtract` drops a 0 right operand,
      `Multiply` gives 0 for a 0 operand and drops a 1 operand, `Divide`
      drops a 1 right operand; otherwise plain arithmetic. */
  function Apply(op: Expr, x: Expr, y: Expr): (r: Result<Expr>)
    requires op.Add? || op.Sub? || op.Mul? || op.Div?
    ensures r.Ok? && IsLeafValue(x) && IsLeafValue(y) ==> IsLeafValue(r.value)
    ensures r.Err? ==> r.error == (if x.Num? && y.Num? then ZeroDivisionError else TypeError)
  {
    match op
    case Add(_, _) =>
      if IsZero(x) && IsZero(y) then Ok(Num(0.0))
      else if IsZero(x) then Ok(y)
      else if IsZero(y) then Ok(x)
      else Arith(op, x, y)
    case Sub(_, _) =>
      if IsZero(y) then Ok(x) else Arith(op, x, y)
    case Mul(_, _) =>
      if IsZero(x) || IsZero(y) then Ok(Num(0.0))
      else if IsOne(x) then Ok(y)
      else if IsOne(y) then Ok(x)
      else Arith(op, x, y)
    case Div(_, _) =>
      if IsOne(y) then Ok(x) else Arith(op, x, y)
  }

  /** `simplify`: leaves are kept, an operator node applies its `apply` to
      its simplified operands (left before right), and any other value
      raises TypeError. What comes back is always a number or a matrix
      element. */
  function Simplify(e: Expr): (r: Result<Expr>)
    ensures r.Ok? ==> IsLeafValue(r.value)
  {
    match e
    case Num(_) => Ok(e)
    case Elem(_, _, _) => Ok(e)
    case Other => Err(TypeError)
    case Neg(a) =>
      (match Simplify(a)
       case Err(err) => Err(err)
       case Ok(x) => NegateApply(x))
    case Add(a, b) => SimplifyBinary(e, Simplify(a), Simplify(b))
    case Sub(a, b) => SimplifyBinary(e, Simplify(a), Simplify(b))
    case Mul(a, b) => SimplifyBinary(e, Simplify(a), Simplify(b))
    case Div(a, b) => SimplifyBinary(e, Simplify(a), Simplify(b))
  }

  /** One binary node of `simplify`, given its simplified operands. */
  function SimplifyBinary(op: Expr, l: Result<Expr>, r: Result<Expr>): (res: Result<Expr>)
    requires op.Add? || op.Sub? || op.Mul? || op.Div?
    requires l.Ok? ==> IsLeafValue(l.value)
    requires r.Ok? ==> IsLeafValue(r.value)
    ensures res.Ok? ==> IsLeafValue(res.value)
  {
    match l
    case Err(err) => Err(err)
    case Ok(x) =>
      match r
      case Err(err) => Err(err)
      case Ok(y) => Apply(op, x, y)
  }

  /** The short cuts never change a value: under every valuation of the
      symbols, what `apply` returns stands for the plain arithmetic result
      of its operands. */
  lemma ApplySound(op: Expr, x: Expr, y: Expr, env: Valuation)
    requires op.Add? || op.Sub? || op.Mul? || op.Div?
    requires IsLeafValue(x) && IsLeafValue(y) && Apply(op, x, y).Ok?
    ensures EvalBinary(op, Ok(LeafValue(x, env)), Ok(LeafValue(y, env))).Ok?
    ensures EvalBinary(op, Ok(LeafValue(x, env)), Ok(LeafValue(y, env))).value == LeafValue(Apply(op, x, y).value, env)
  {
    var u := LeafValue(x, env);
    var v := LeafValue(y, env);
    if op.Mul? && (IsZero(x) || IsZero(y)) {
      RealMatrix.ProductWithZero(u, v);
    } else if op.Div? && !IsOne(y) {
      assert x.Num? && y.Num?;
    }
  }

  /** `simplify` is sound: whenever it succeeds, the tree and the leaf it
      returns stand for the same number under every valuation. */
  lemma {:induction false} SimplifySound(e: Expr, env: Valuation)
    requires Simplify(e).Ok?
    ensures Eval(e, env).Ok?
    ensures Eval(e, env).value == LeafValue(Simplify(e).value, env)
  {
    match e
    case Num(_) =>
    case Elem(_, _, _) =>
    case Neg(a) =>
      SimplifySound(a, env);
    case Add(a, b) =>
      SimplifySound(a, env); SimplifySound(b, env);
      ApplySound(e, Simplify(a).value, Simplify(b).value, env);
    case Sub(a, b) =>
      SimplifySound(a, env); SimplifySound(b, env);
      ApplySound(e, Simplify(a).value, Simplify(b).value, env);
    case Mul(a, b) =>
      SimplifySound(a, env); SimplifySound(b, env);
      ApplySound(e, Simplify(a).value, Simplify(b).value, env);
    case Div(a, b) =>
      SimplifySound(a, env); SimplifySound(b, env);
      ApplySound(e, Simplify(a).value, Simplify(b).value, env);
  }

  /** On two numbers `apply` agrees with plain arithmetic, exceptions
      included. */
  lemma ApplyNumbers(op: Expr, x: real, y: real)
    requires op.Add? || op.Sub? || op.Mul? || op.Div?
    ensures Apply(op, Num(x), Num(y)).Ok? <==> EvalBinary(op, Ok(x), Ok(y)).Ok?
    ensures Apply(op, Num(x), Num(y)).Ok? ==> Apply(op, Num(x), Num(y)).value == Num(EvalBinary(op, Ok(x), Ok(y)).value)
    ensures Apply(op, Num(x), Num(y)).Err? ==> Apply(op, Num(x), Num(y)).error == EvalBinary(op, Ok(x), Ok(y)).error
  {
    if op.Mul? && (x == 0.0 || y == 0.0) {
      RealMatrix.ProductWithZero(x, y);
    }
  }

  /** On a tree of numbers `simplify` is complete: it computes the value
      the tree stands for, and raises exactly when the arithmetic raises,
      with the same exception. */
  lemma {:induction false} SimplifyGround(e: Expr, env: Valuation)
    requires IsGround(e)
    ensures Simplify(e).Ok? <==> Eval(e, env).Ok?
    ensures Simplify(e).Ok? ==> Simplify(e).value == Num(Eval(e, env).value)
    ensures Simplify(e).Err? ==> Simplify(e).error == Eval(e, env).error
  {
    match e
    case Num(_) =>
    case Neg(a) =>
      SimplifyGround(a, env);
    case Add(a, b) => SimplifyGroundBinary(e, env);
    case Sub(a, b) => SimplifyGroundBinary(e, env);
    case Mul(a, b) => SimplifyGroundBinary(e, env);
    case Div(a, b) => SimplifyGroundBinary(e, env);
  }

  lemma {:induction false} SimplifyGroundBinary(e: Expr, env: Valuation)
    requires (e.Add? || e.Sub? || e.Mul? || e.Div?) && IsGround(e)
    ensures Simplify(e).Ok? <==> Eval(e, env).Ok?
    ensures Simplify(e).Ok? ==> Simplify(e).value == Num(Eval(e, env).value)
    ensures Simplify(e).Err? ==> Simplify(e).error == Eval(e, env).error
    decreases e, 0
  {
    SimplifyGround(e.lhs, env);
    SimplifyGround(e.rhs, env);
    assert Simplify(e) == SimplifyBinary(e, Simplify(e.lhs), Simplify(e.rhs));
    assert Eval(e, env) == EvalBinary(e, Eval(e.lhs, env), Eval(e.rhs, env));
    if Simplify(e.lhs).Ok? && Simplify(e.rhs).Ok? {
      ApplyNumbers(e, Eval(e.lhs, env).value, Eval(e.rhs, env).value);
    }
  }

  /** A leaf simplifies to itself. */
  lemma SimplifyLeaf(e: Expr)
    requires IsLeafValue(e)
    ensures Simplify(e) == Ok(e)
  {
  }

  /** `mat_transpose`: no rows give no rows; otherwise row i of the result
      is column i of `m`, for every column of the first row, and a later row
      shorter than the first raises IndexError. */
  function Transpose<T>(m: seq<seq<T>>): (r: Result<seq<seq<T>>>)
    ensures r.Ok? <==> |m| == 0 || forall j :: 0 <= j < |m| ==> |m[j]| >= |m[0]|
    ensures r.Err? ==> r.error == IndexError
    ensures r.Ok? && |m| > 0 ==> |r.value| == |m[0]| && IsRectangular(r.value, |m|)
    ensures r.Ok? && |m| == 0 ==> r.value == []
    ensures r.Ok? ==> forall i, j :: 0 <= i < |r.value| && 0 <= j < |m| ==> r.value[i][j] == m[j][i]
  {
    if |m| == 0 then Ok([])
    else if exists j :: 0 <= j < |m| && |m[j]| < |m[0]| then Err(IndexError)
    else Ok(seq(|m[0]|, i requires 0 <= i < |m[0]| => seq(|m|, j requires 0 <= j < |m| => m[j][i])))
  }

  method MatTranspose<T>(m: seq<seq<T>>) returns (r: Result<seq<seq<T>>>)
    ensures r == Transpose(m)
  {
    if |m| == 0 {
      return Ok([]);
    }
    var result := [];
    for i := 0 to |m[0]|
      invariant forall q :: 0 <= q < |m| ==> |m[q]| >= i
      invariant |result| == i && forall ii :: 0 <= ii < i ==> |result[ii]| == |m|
      invariant forall ii, jj :: 0 <= ii < i && 0 <= jj < |m| ==> result[ii][jj] == m[jj][ii]
    {
      var row := [];
      for j := 0 to |m|
        invariant forall q :: 0 <= q < j ==> |m[q]| > i
        invariant |row| == j && forall jj :: 0 <= jj < j ==> row[jj] == m[jj][i]
      {
        if i >= |m[j]| {
          return Err(IndexError);
        }
        row := row + [m[j][i]];
      }
      result := result + [row];
    }
    r := Ok(result);
    var t := Transpose(m);
    assert t.Ok?;
    forall i | 0 <= i < |result|
      ensures result[i] == t.value[i]
    {
      assert |result[i]| == |t.value[i]|;
    }
    assert result == t.value;
  }

  /** A rectangular matrix with at least one column, transposed twice, is
      itself again. */
  lemma TransposeTwice<T>(m: seq<seq<T>>, cols: nat)
    requires |m| > 0 && cols > 0 && IsRectangular(m, cols)
    ensures Transpose(m).Ok? && Transpose(Transpose(m).value) == Ok(m)
  {
    var t := Transpose(m).value;
    assert |t| == cols && |t[0]| == |m|;
    var tt := Transpose(t);
    assert tt.Ok?;
    assert |tt.value| == |m|;
    forall i | 0 <= i < |m|
      ensures tt.value[i] == m[i]
    {
      assert |tt.value[i]| == |t| == |m[i]|;
      forall j | 0 <= j < |m[i]|
        ensures tt.value[i][j] == m[i][j]
      {
        assert tt.value[i][j] == t[j][i];
      }
    }
    assert tt.value == m;
  }

  /** `mat_is_equal`: same number of rows, and row by row the same length
      and the same entries. */
  method MatIsEqual(lhs: Matrix, rhs: Matrix) returns (b: bool)
    ensures b <==> lhs == rhs
  {
    if |lhs| != |rhs| {
      return false;
    }
    for i := 0 to |lhs|
      invariant lhs[..i] == rhs[..i]
    {
      if |lhs[i]| != |rhs[i]| {
        return false;
      }
      for j := 0 to |lhs[i]|
        invariant lhs[i][..j] == rhs[i][..j]
      {
        if lhs[i][j] != rhs[i][j] {
          return false;
        }
      }
      assert lhs[i] == lhs[i][..|lhs[i]|];
      assert rhs[i] == rhs[i][..|rhs[i]|];
      assert lhs[..i + 1] == lhs[..i] + [lhs[i]];
      assert rhs[..i + 1] == rhs[..i] + [rhs[i]];
    }
    assert lhs == lhs[..|lhs|];
    assert rhs == rhs[..|rhs|];
    return true;
  }

  /** Entry (i, j) of `mat_multiply` after the first k steps of its inner
      loop: the products `Multiply(m[i][q], n[q][j])` folded from the left
      with `Add`. */
  function Dot(m: Matrix, n: Matrix, i: int, j: int, k: int): Expr
    requires 0 <= i < |m| && 1 <= k <= |m[i]| && k <= |n| && 0 <= j
    requires forall q :: 0 <= q < k ==> j < |n[q]|
    decreases k
  {
    var t := Mul(m[i][k - 1], n[k - 1][j]);
    if k == 1 then t else Add(Dot(m, n, i, j, k - 1), t)
  }

  /** The inner loop of `mat_multiply` reads past the end of a row: some row
      of `m` is shorter than `n` has rows, or some row of `n` is shorter
      than its first one. Nothing is read when `n[0]` is empty. */
  predicate Ragged(m: Matrix, n: Matrix)
    requires |n| > 0
  {
    |n[0]| > 0 &&
    ((exists i :: 0 <= i < |m| && |m[i]| < |n|) || (exists k :: 0 <= k < |n| && |n[k]| < |n[0]|))
  }

  /** `mat_multiply`: ValueError for an empty operand or when the first
      row of `m` does not match the number of rows of `n`, IndexError when
      the loops run off a short row, and otherwise the |m|-by-|n[0]|
      matrix of the `Dot` trees. */
  function Multiply(m: Matrix, n: Matrix): (r: Result<Matrix>)
    ensures r.Err? ==> r.error == (if |m| == 0 || |n| == 0 || |m[0]| != |n| then ValueError else IndexError)
    ensures r.Ok? <==> |m| > 0 && |n| > 0 && |m[0]| == |n| && !Ragged(m, n)
    ensures r.Ok? ==> |r.value| == |m| && IsRectangular(r.value, |n[0]|)
    ensures r.Ok? ==> forall i, j :: 0 <= i < |m| && 0 <= j < |n[0]| ==> r.value[i][j] == Dot(m, n, i, j, |n|)
  {
    if |m| == 0 || |n| == 0 then Err(ValueError)
    else if |m[0]| != |n| then Err(ValueError)
    else if Ragged(m, n) then Err(IndexError)
    else Ok(seq(|m|, i requires 0 <= i < |m| => seq(|n[0]|, j requires 0 <= j < |n[0]| => Dot(m, n, i, j, |n|))))
  }

  method MatMultiply(m: Matrix, n: Matrix) returns (r: Result<Matrix>)
    ensures r == Multiply(m, n)
  {
    if |m| == 0 || |n| == 0 {
      return Err(ValueError);
    }
    if |m[0]| != |n| {
      return Err(ValueError);
    }
    var result := [];
    for i := 0 to |m|
      invariant |result| == i
      invariant |n[0]| > 0 ==> forall q :: 0 <= q < i ==> |m[q]| >= |n|
      invariant |n[0]| > 0 && i > 0 ==> forall q :: 0 <= q < |n| ==> |n[q]| >= |n[0]|
      invariant forall ii :: 0 <= ii < i ==> |result[ii]| == |n[0]|
      invariant forall ii, jj :: 0 <= ii < i && 0 <= jj < |n[0]| ==> result[ii][jj] == Dot(m, n, ii, jj, |n|)
    {
      var row := [];
      for j := 0 to |n[0]|
        invariant |row| == j
        invariant j > 0 ==> |m[i]| >= |n|
        invariant forall q :: 0 <= q < |n| ==> |n[q]| >= j
        invariant forall jj :: 0 <= jj < j ==> row[jj] == Dot(m, n, i, jj, |n|)
      {
        var sum := Other;  // None
        for k := 0 to |n|
          invariant k <= |m[i]|
          invariant forall q :: 0 <= q < k ==> j < |n[q]|
          invariant k > 0 ==> sum == Dot(m, n, i, j, k)
        {
          if k >= |m[i]| || j >= |n[k]| {
            return Err(IndexError);
          }
          var term := Mul(m[i][k], n[k][j]);
          if k == 0 {
            sum := term;
          } else {
            sum := Add(sum, term);
          }
        }
        row := row + [sum];
      }
      result := result + [row];
    }
    var p := Multiply(m, n);
    assert p.Ok?;
    forall i | 0 <= i < |m|
      ensures result[i] == p.value[i]
    {
      assert |result[i]| == |p.value[i]|;
    }
    assert result == p.value;
    return Ok(result);
  }

  /** The k-term `Dot` tree of two matrices that evaluate to `a` and `b`
      evaluates to the sum of the first k products of row i of `a` with
      column j of `b`; over numbers it holds no symbol. */
  lemma {:induction false} DotValue(m: Matrix, n: Matrix, env: Valuation, a: seq<seq<real>>, b: seq<seq<real>>,
                                    i: int, j: int, k: int)
    requires Valued(m, env, a) && Valued(n, env, b)
    requires 0 <= i < |m| && 1 <= k <= |m[i]| && k <= |n| && 0 <= j
    requires forall q :: 0 <= q < k ==> j < |n[q]|
    ensures Eval(Dot(m, n, i, j, k), env) == Ok(RealMatrix.DotSum(a, b, i, j, k))
    decreases k
  {
    var x, y, u, v := m[i][k - 1], n[k - 1][j], a[i][k - 1], b[k - 1][j];
    assert Eval(x, env) == Ok(u) && Eval(y, env) == Ok(v);
    var acc := RealMatrix.DotSum(a, b, i, j, k - 1);
    assert RealMatrix.DotSum(a, b, i, j, k) == acc + u * v;
    if k == 1 {
      DotStepValue(Num(0.0), x, y, env, 0.0, u, v);
      assert Dot(m, n, i, j, k) == Mul(x, y) && acc == 0.0;
    } else {
      var s := Dot(m, n, i, j, k - 1);
      DotValue(m, n, env, a, b, i, j, k - 1);
      DotStepValue(s, x, y, env, acc, u, v);
      assert Dot(m, n, i, j, k) == Add(s, Mul(x, y));
    }
  }

  /** One step of `DotValue`: the first product alone, or a product added
      to the sum so far. */
  lemma DotStepValue(s: Expr, x: Expr, y: Expr, env: Valuation, acc: real, u: real, v: real)
    requires Eval(s, env) == Ok(acc) && Eval(x, env) == Ok(u) && Eval(y, env) == Ok(v)
    ensures Eval(Mul(x, y), env) == Ok(0.0 + u * v)
    ensures Eval(Add(s, Mul(x, y)), env) == Ok(acc + u * v)
  {
    EvalOperands(Mul(x, y), env, u, v);
    EvalOperands(Add(s, Mul(x, y)), env, acc, u * v);
  }

  /** Over numbers, a `Dot` tree holds no symbol. */
  lemma {:induction false} DotGround(m: Matrix, n: Matrix, i: int, j: int, k: int)
    requires 0 <= i < |m| && 1 <= k <= |m[i]| && k <= |n| && 0 <= j
    requires forall q :: 0 <= q < k ==> j < |n[q]|
    requires forall q :: 0 <= q < k ==> m[i][q].Num? && n[q][j].Num?
    ensures IsGround(Dot(m, n, i, j, k))
    decreases k
  {
    if k > 1 {
      DotGround(m, n, i, j, k - 1);
    }
  }

  /** `mat_multiply` is the matrix product: under every valuation, entry
      (i, j) of the product of two matrices of numbers and symbols evaluates
      to the sum over k of m[i][k] * n[k][j] of their values; over numbers
      the entry holds no symbol. */
  lemma MultiplyEval(m: Matrix, n: Matrix, env: Valuation, i: int, j: int)
    requires IsLeafMatrix(m) && IsLeafMatrix(n) && Multiply(m, n).Ok?
    requires 0 <= i < |m| && 0 <= j < |n[0]|
    ensures |Values(m, env)[i]| >= |n| && |Values(n, env)| == |n|
    ensures forall q :: 0 <= q < |n| ==> j < |Values(n, env)[q]|
    ensures Eval(Multiply(m, n).value[i][j], env) == Ok(RealMatrix.DotSum(Values(m, env), Values(n, env), i, j, |n|))
    ensures IsNumberMatrix(m) && IsNumberMatrix(n) ==> IsGround(Multiply(m, n).value[i][j])
  {
    ValuesValued(m, env);
    ValuesValued(n, env);
    assert !Ragged(m, n);
    DotValue(m, n, env, Values(m, env), Values(n, env), i, j, |n|);
    if IsNumberMatrix(m) && IsNumberMatrix(n) {
      DotGround(m, n, i, j, |n|);
    }
  }

  /** `mat_simplify`: every entry simplified, row by row; the first entry
      that cannot be simplified raises its exception. */
  function MatSimplify(m: Matrix): (r: Result<Matrix>)
    ensures r.Ok? <==> forall i, j :: 0 <= i < |m| && 0 <= j < |m[i]| ==> Simplify(m[i][j]).Ok?
    ensures r.Ok? ==> |r.value| == |m| && forall i :: 0 <= i < |m| ==> |r.value[i]| == |m[i]|
    ensures r.Ok? ==> IsLeafMatrix(r.value)
    ensures r.Ok? ==> forall i, j :: 0 <= i < |m| && 0 <= j < |m[i]| ==> r.value[i][j] == Simplify(m[i][j]).value
  {
    Visit(m, Simplify)
  }

  /** A matrix of the same shape as `target` whose every entry simplifies to
      the matching entry of `target` simplifies to `target`. */
  lemma MatSimplifyTo(m: Matrix, target: Matrix)
    requires |m| == |target| && forall i :: 0 <= i < |m| ==> |m[i]| == |target[i]|
    requires forall i, j :: 0 <= i < |m| && 0 <= j < |m[i]| ==> Simplify(m[i][j]) == Ok(target[i][j])
    ensures MatSimplify(m) == Ok(target)
  {
    var s := MatSimplify(m);
    assert s.Ok?;
    forall i | 0 <= i < |m|
      ensures s.value[i] == target[i]
    {
      assert |s.value[i]| == |target[i]|;
    }
    assert s.value == target;
  }

  /** Simplifying twice changes nothing more. */
  lemma MatSimplifyIdempotent(m: Matrix)
    requires MatSimplify(m).Ok?
    ensures MatSimplify(MatSimplify(m).value) == MatSimplify(m)
  {
    var s := MatSimplify(m).value;
    var t := MatSimplify(s);
    assert t.Ok?;
    forall i | 0 <= i < |s|
      ensures t.value[i] == s[i]
    {
      forall j | 0 <= j < |s[i]|
        ensures t.value[i][j] == s[i][j]
      {
        SimplifyLeaf(s[i][j]);
      }
    }
    assert t.value == s;
  }

  /** Entry (i, j) of identity times `x`, after k steps, simplifies to the
      entry of `x` once row i has been reached and to 0 before. */
  lemma {:induction false} DotIdentity(x: Matrix, i: int, j: int, k: int)
    requires IsSquare(x) && IsLeafMatrix(x) && 0 <= i < |x| && 0 <= j < |x| && 1 <= k <= |x|
    ensures Simplify(Dot(Identity(|x|), x, i, j, k)) == Ok(if i < k then x[i][j] else Num(0.0))
    decreases k
  {
    var id := Identity(|x|);
    var y := x[k - 1][j];
    SimplifyLeaf(y);
    assert Simplify(Mul(id[i][k - 1], y)) == Ok(if i == k - 1 then y else Num(0.0));
    if k > 1 {
      DotIdentity(x, i, j, k - 1);
    }
  }

  /** Multiplying by the identity on the left and simplifying gives back
      any square matrix of numbers and symbols. */
  lemma MultiplyIdentity(x: Matrix)
    requires IsSquare(x) && |x| >= 1 && IsLeafMatrix(x)
    ensures Multiply(Identity(|x|), x).Ok?
    ensures MatSimplify(Multiply(Identity(|x|), x).value) == Ok(x)
  {
    var p := Multiply(Identity(|x|), x);
    assert !Ragged(Identity(|x|), x);
    assert p.Ok?;
    var s := MatSimplify(p.value);
    forall i, j | 0 <= i < |x| && 0 <= j < |x|
      ensures Simplify(p.value[i][j]) == Ok(x[i][j])
    {
      DotIdentity(x, i, j, |x|);
    }
    assert s.Ok?;
    forall i | 0 <= i < |x|
      ensures s.value[i] == x[i]
    {
      assert |s.value[i]| == |x[i]|;
    }
    assert s.value == x;
  }

  /** The cofactor of entry (i, j): the determinant of its minor, negated
      when i + j is odd. */
  function Cofactor(m: Matrix, i: int, j: int): Result<Expr> {
    match Det(Minor(m, i, j))
    case Err(e) => Err(e)
    case Ok(d) => Ok(if (i + j) % 2 == 1 then Neg(d) else d)
  }

  function CofactorAt(m: Matrix): (Expr, int, int) -> Result<Expr> {
    (x, i, j) => Cofactor(m, i, j)
  }

  /** `mat_cofactor_matrix`: the cofactor of every position, row by row,
      raising the first exception a minor's determinant raises. */
  function CofactorMatrix(m: Matrix): (r: Result<Matrix>)
    ensures r.Ok? <==> forall i, j :: 0 <= i < |m| && 0 <= j < |m[i]| ==> Cofactor(m, i, j).Ok?
    ensures r.Ok? ==> |r.value| == |m| && forall i :: 0 <= i < |m| ==> |r.value[i]| == |m[i]|
    ensures r.Ok? ==> forall i, j :: 0 <= i < |m| && 0 <= j < |m[i]| ==> r.value[i][j] == Cofactor(m, i, j).value
  {
    var f := CofactorAt(m);
    assert forall i, j :: 0 <= i < |m| && 0 <= j < |m[i]| ==> f(m[i][j], i, j) == Cofactor(m, i, j);
    VisitIndex(m, f)
  }

  method MatCofactorMatrix(m: Matrix) returns (r: Result<Matrix>)
    ensures r == CofactorMatrix(m)
  {
    var f := CofactorAt(m);
    var cofactors := [];
    for i := 0 to |m|
      invariant VisitIndex(m[..i], f) == Ok(cofactors)
    {
      var row := CofactorRow(m, i);
      VisitIndexStep(m, i, f, cofactors);
      if row.Err? {
        VisitIndexErrSticky(m, i + 1, f);
        return Err(row.error);
      }
      cofactors := cofactors + [row.value];
    }
    assert m[..|m|] == m;
    return Ok(cofactors);
  }

  /** Row i of `mat_cofactor_matrix`: the signed determinant of each minor
      along the row, stopping at the first exception. */
  method CofactorRow(m: Matrix, i: int) returns (r: Result<seq<Expr>>)
    requires 0 <= i < |m|
    ensures r == VisitRow(m[i], i, CofactorAt(m))
  {
    var f := CofactorAt(m);
    var row := [];
    for j := 0 to |m[i]|
      invariant VisitRow(m[i][..j], i, f) == Ok(row)
    {
      var c := CofactorOf(m, i, j);
      assert f(m[i][j], i, j) == c;
      VisitRowStep(m[i], j, i, f, row);
      if c.Err? {
        VisitRowErrSticky(m[i], j + 1, i, f);
        assert m[i][..|m[i]|] == m[i];
        return Err(c.error);
      }
      row := row + [c.value];
    }
    assert m[i][..|m[i]|] == m[i];
    return Ok(row);
  }

  /** One step of the inner loop of `mat_cofactor_matrix`: the determinant
      of the minor, negated when i + j is odd. */
  method CofactorOf(m: Matrix, i: int, j: int) returns (r: Result<Expr>)
    ensures r == Cofactor(m, i, j)
  {
    var minor := MatMinor(m, i, j);
    var minorDet := MatDeterminant(minor);
    if minorDet.Err? {
      return Err(minorDet.error);
    }
    var c := minorDet.value;
    if (i + j) % 2 == 1 {
      c := Neg(c);
    }
    return Ok(c);
  }

  /** A square matrix of size at least 2 has all its cofactors. */
  lemma CofactorMatrixSquare(m: Matrix)
    requires IsSquare(m) && |m| >= 2
    ensures CofactorMatrix(m).Ok? && IsSquare(CofactorMatrix(m).value) && |CofactorMatrix(m).value| == |m|
  {
    forall i, j | 0 <= i < |m| && 0 <= j < |m[i]|
      ensures Cofactor(m, i, j).Ok?
    {
      MinorSquare(m, i, j);
    }
  }

  function DivideBy(scalar: Expr): Expr -> Result<Expr> {
    x => Ok(Div(x, scalar))
  }

  function MultiplyBy(scalar: Expr): Expr -> Result<Expr> {
    x => Ok(Mul(x, scalar))
  }

  /** `mat_scalar_divide`: ValueError for a scalar equal to 0, and
      otherwise every entry wrapped in `Divide(entry, scalar)`. */
  function ScalarDivide(matrix: Matrix, scalar: Expr): (r: Result<Matrix>)
    ensures r.Ok? <==> !IsZero(scalar)
    ensures r.Err? ==> r.error == ValueError
    ensures r.Ok? ==> |r.value| == |matrix| && forall i :: 0 <= i < |matrix| ==> |r.value[i]| == |matrix[i]|
    ensures r.Ok? ==> forall i, j :: 0 <= i < |matrix| && 0 <= j < |matrix[i]| ==> r.value[i][j] == Div(matrix[i][j], scalar)
  {
    if IsZero(scalar) then Err(ValueError)
    else Visit(matrix, DivideBy(scalar))
  }

  /** `mat_scalar_multiply`: every entry wrapped in `Multiply(entry, scalar)`;
      it never raises. */
  function ScalarMultiply(matrix: Matrix, scalar: Expr): (r: Result<Matrix>)
    ensures r.Ok?
    ensures |r.value| == |matrix| && forall i :: 0 <= i < |matrix| ==> |r.value[i]| == |matrix[i]|
    ensures forall i, j :: 0 <= i < |matrix| && 0 <= j < |matrix[i]| ==> r.value[i][j] == Mul(matrix[i][j], scalar)
  {
    Visit(matrix, MultiplyBy(scalar))
  }

  lemma ScaleRoundTrip(x: real, c: real)
    requires c != 0.0
    ensures Simplify(Div(Mul(Num(x), Num(c)), Num(c))) == Ok(Num(x))
  {
    var env: Valuation := (a, b, name) => 0.0;
    var e := Div(Mul(Num(x), Num(c)), Num(c));
    SimplifyGround(e, env);
    EvalOperands(Mul(Num(x), Num(c)), env, x, c);
    assert Eval(e, env) == EvalBinary(e, Ok(x * c), Ok(c));
    assert Eval(e, env).value == (x * c) / c == x;
  }

  /** Multiplying a matrix of numbers by a non-zero number, dividing by it
      again and simplifying gives back the matrix. */
  lemma ScalarRoundTrip(m: Matrix, c: real)
    requires IsNumberMatrix(m) && c != 0.0
    ensures ScalarDivide(ScalarMultiply(m, Num(c)).value, Num(c)).Ok?
    ensures MatSimplify(ScalarDivide(ScalarMultiply(m, Num(c)).value, Num(c)).value) == Ok(m)
  {
    var p := ScalarMultiply(m, Num(c)).value;
    var q := ScalarDivide(p, Num(c));
    assert q.Ok?;
    forall i, j | 0 <= i < |m| && 0 <= j < |m[i]|
      ensures Simplify(q.value[i][j]) == Ok(m[i][j])
    {
      assert q.value[i][j] == Div(Mul(m[i][j], Num(c)), Num(c));
      ScaleRoundTrip(m[i][j].n, c);
    }
    var s := MatSimplify(q.value);
    assert s.Ok?;
    forall i | 0 <= i < |m|
      ensures s.value[i] == m[i]
    {
      assert |s.value[i]| == |m[i]|;
    }
    assert s.value == m;
  }

  /** `mat_inverse`: ValueError for a matrix that is not square, the
      determinant's own exception, ValueError when the determinant is the
      number 0, then the cofactor matrix, transposed into the adjugate and
      divided entry by entry by the determinant tree. */
  function Inverse(m: Matrix): (r: Result<Matrix>)
    ensures !IsSquare(m) ==> r == Err(ValueError)
    ensures |m| == 0 ==> r == Err(IndexError)
  {
    if Rank(m) == -1 then Err(ValueError)
    else
      match Det(m)
      case Err(e) => Err(e)
      case Ok(d) =>
        if IsZero(d) then Err(ValueError) else ScaledAdjugate(m, d)
  }

  /** The last steps of `mat_inverse`: the cofactor matrix, transposed into
      the adjugate, divided entry by entry by `d`. */
  function ScaledAdjugate(m: Matrix, d: Expr): Result<Matrix> {
    match CofactorMatrix(m)
    case Err(e) => Err(e)
    case Ok(c) =>
      match Transpose(c)
      case Err(e) => Err(e)
      case Ok(adj) => ScalarDivide(adj, d)
  }

  method MatInverse(m: Matrix) returns (r: Result<Matrix>)
    ensures r == Inverse(m)
  {
    var rank := MatRank(m);
    if rank == -1 {
      return Err(ValueError);
    }
    var det := MatDeterminant(m);
    if det.Err? {
      return Err(det.error);
    }
    if IsZero(det.value) {
      return Err(ValueError);
    }
    var cofactors := MatCofactorMatrix(m);
    if cofactors.Err? {
      return Err(cofactors.error);
    }
    var adjugate := MatTranspose(cofactors.value);
    if adjugate.Err? {
      return Err(adjugate.error);
    }
    r := ScalarDivide(adjugate.value, det.value);
  }

  /** From size 2 on, the determinant is an operator node, never the
      number 0. */
  lemma DetIsNode(m: Matrix)
    requires IsSquare(m) && |m| >= 2
    ensures Det(m).Ok? && (Det(m).value.Add? || Det(m).value.Sub?)
  {
    assert Rank(m) == |m|;
    if |m| >= 3 {
      assert Det(m) == Expansion(m, |m|);
    }
  }

  /** `Inverse` once each of its steps is known to succeed. */
  lemma InverseSteps(m: Matrix, d: Expr, c: Matrix, adj: Matrix)
    requires Rank(m) != -1 && Det(m) == Ok(d) && !IsZero(d)
    requires CofactorMatrix(m) == Ok(c) && Transpose(c) == Ok(adj)
    ensures ScaledAdjugate(m, d) == ScalarDivide(adj, d)
    ensures Inverse(m) == ScalarDivide(adj, d)
  {
  }

  /** From size 2 on the inverse always exists as a tree: entry (i, j) is
      the cofactor of (j, i) divided by the determinant tree. */
  lemma InverseEntries(m: Matrix) returns (inv: Matrix)
    requires IsSquare(m) && |m| >= 2
    ensures Inverse(m) == Ok(inv) && IsSquare(inv) && |inv| == |m|
    ensures forall i, j :: 0 <= i < |m| && 0 <= j < |m| ==> Cofactor(m, i, j).Ok?
    ensures forall i, j :: 0 <= i < |m| && 0 <= j < |m| ==>
      inv[i][j] == Div(Cofactor(m, j, i).value, Det(m).value)
  {
    Adjugate(m);
    DetIsNode(m);
    var d := Det(m).value;
    var c := CofactorMatrix(m).value;
    var adj := Transpose(c).value;
    InverseSteps(m, d, c, adj);
    inv := DivideAdjugate(m, d, adj);
  }

  lemma DivideAdjugate(m: Matrix, d: Expr, adj: Matrix) returns (inv: Matrix)
    requires IsSquare(m) && |m| >= 2 && Det(m) == Ok(d) && !IsZero(d)
    requires forall i, j :: 0 <= i < |m| && 0 <= j < |m| ==> Cofactor(m, i, j).Ok?
    requires |adj| == |m| && IsSquare(adj)
    requires forall i, j :: 0 <= i < |m| && 0 <= j < |m| ==> adj[i][j] == Cofactor(m, j, i).value
    ensures ScalarDivide(adj, d) == Ok(inv)
    ensures |inv| == |m| && IsSquare(inv)
    ensures forall i, j :: 0 <= i < |m| && 0 <= j < |m| ==>
      inv[i][j] == Div(Cofactor(m, j, i).value, Det(m).value)
  {
    inv := ScalarDivide(adj, d).value;
  }

  /** The transposed cofactor matrix of a square matrix of size at least 2. */
  lemma Adjugate(m: Matrix)
    requires IsSquare(m) && |m| >= 2
    ensures forall i, j :: 0 <= i < |m| && 0 <= j < |m| ==> Cofactor(m, i, j).Ok?
    ensures CofactorMatrix(m).Ok? && Transpose(CofactorMatrix(m).value).Ok?
    ensures |Transpose(CofactorMatrix(m).value).value| == |m|
    ensures IsSquare(Transpose(CofactorMatrix(m).value).value)
    ensures forall i, j :: 0 <= i < |m| && 0 <= j < |m| ==>
      Transpose(CofactorMatrix(m).value).value[i][j] == Cofactor(m, j, i).value
  {
    CofactorMatrixSquare(m);
    var c := CofactorMatrix(m).value;
    var t := Transpose(c);
    assert t.Ok?;
  }

  /** The cofactor tree of a matrix of numbers and symbols evaluates to
      the cofactor of the valued matrix. */
  lemma CofactorEval(m: Matrix, env: Valuation, i: int, j: int)
    requires IsSquare(m) && |m| >= 2 && IsLeafMatrix(m) && 0 <= i < |m| && 0 <= j < |m|
    ensures IsSquare(Values(m, env)) && |Values(m, env)| == |m|
    ensures Cofactor(m, i, j).Ok? && IsArithmetic(Cofactor(m, i, j).value)
    ensures IsNumberMatrix(m) ==> IsGround(Cofactor(m, i, j).value)
    ensures Eval(Cofactor(m, i, j).value, env).Ok?
    ensures Eval(Cofactor(m, i, j).value, env).value == RealMatrix.Cofactor(Values(m, env), i, j)
  {
    MinorTreeEval(m, env, i, j);
    CofactorUnfold(Values(m, env), i, j);
    var d := Det(Minor(m, i, j)).value;
    assert Cofactor(m, i, j).value == if (i + j) % 2 == 1 then Neg(d) else d;
  }

  /** The adjugate formula: under every valuation, entry (i, j) of the
      inverse evaluates to the cofactor of (j, i) divided by the
      determinant, and raises ZeroDivisionError exactly when the
      determinant is 0. */
  lemma InverseEval(m: Matrix, env: Valuation, i: int, j: int)
    requires IsSquare(m) && |m| >= 2 && IsLeafMatrix(m) && 0 <= i < |m| && 0 <= j < |m|
    ensures Inverse(m).Ok? && |Inverse(m).value| == |m| && |Inverse(m).value[i]| == |m|
    ensures IsSquare(Values(m, env)) && |Values(m, env)| == |m|
    ensures IsNumberMatrix(m) ==> IsGround(Inverse(m).value[i][j])
    ensures Eval(Inverse(m).value[i][j], env).Ok? <==> RealMatrix.Det(Values(m, env)) != 0.0
    ensures Eval(Inverse(m).value[i][j], env).Err? ==> Eval(Inverse(m).value[i][j], env).error == ZeroDivisionError
    ensures Eval(Inverse(m).value[i][j], env).Ok? ==>
      Eval(Inverse(m).value[i][j], env).value == RealMatrix.Cofactor(Values(m, env), j, i) / RealMatrix.Det(Values(m, env))
  {
    var inv := InverseEntries(m);
    DetEval(m, env);
    CofactorEval(m, env, j, i);
    var e := inv[i][j];
    assert e == Div(Cofactor(m, j, i).value, Det(m).value);
    assert Eval(e, env) == EvalBinary(e, Eval(Cofactor(m, j, i).value, env), Eval(Det(m).value, env));
  }

  /** The inverse of the identity, simplified, is the identity, for every
      size from 2 on; so `mat_is_equal` of the two holds. */
  lemma InverseIdentity(n: nat)
    requires n >= 2
    ensures Inverse(Identity(n)).Ok?
    ensures MatSimplify(Inverse(Identity(n)).value) == Ok(Identity(n))
  {
    var m := Identity(n);
    var inv := InverseEntries(m);
    forall i, j | 0 <= i < n && 0 <= j < n
      ensures Simplify(inv[i][j]) == Ok(m[i][j])
    {
      InverseIdentityEntry(n, i, j);
    }
    var s := MatSimplify(inv);
    assert s.Ok?;
    forall i | 0 <= i < n
      ensures s.value[i] == m[i]
    {
      assert |s.value[i]| == |m[i]|;
    }
    assert s.value == m;
  }

  lemma InverseIdentityEntry(n: nat, i: int, j: int)
    requires n >= 2 && 0 <= i < n && 0 <= j < n
    ensures Inverse(Identity(n)).Ok? && |Inverse(Identity(n)).value| == n && |Inverse(Identity(n)).value[i]| == n
    ensures Simplify(Inverse(Identity(n)).value[i][j]) == Ok(Identity(n)[i][j])
  {
    var m := Identity(n);
    var env: Valuation := (a, b, name) => 0.0;
    ValuesIdentity(n, env);
    RealMatrix.DetIdentity(n);
    InverseEval(m, env, i, j);
    RealMatrix.CofactorIdentity(n, j, i);
    var e := Inverse(m).value[i][j];
    SimplifyGround(e, env);
    assert Eval(e, env).value == if i == j then 1.0 else 0.0;
  }

  /** A 1-by-1 matrix has no inverse: a zero entry is refused as singular,
      and any other entry reaches the determinant of the empty minor, which
      reads a row that is not there. */
  lemma InverseOneByOne(x: Expr)
    ensures Inverse([[x]]) == if IsZero(x) then Err(ValueError) else Err(IndexError)
  {
    var m := [[x]];
    assert Rank(m) == 1;
    assert Minor(m, 0, 0) == [];
    assert Cofactor(m, 0, 0) == Err(IndexError);
    assert !IsZero(x) ==> VisitIndex(m, CofactorAt(m)) == Err(IndexError) by {
      assert m[..0] == [];
      assert VisitRow(m[0][..0], 0, CofactorAt(m)) == Ok([]);
      assert m[0][..1] == m[0];
    }
  }

  /** The valuation that gives every symbol 0, for matrices of numbers,
      whose value does not depend on it. */
  const Unvalued: Valuation := (i, j, name) => 0.0

  /** The singularity test of `mat_inverse` compares the determinant tree
      itself with 0, and from size 2 on that tree is an operator node: a
      square matrix of numbers always gets an inverse, and simplifying it
      succeeds exactly when the determinant is not 0 (otherwise it raises
      ZeroDivisionError rather than the ValueError of the test). */
  lemma InverseNumbers(m: Matrix)
    requires IsSquare(m) && |m| >= 2 && IsNumberMatrix(m)
    ensures Inverse(m).Ok?
    ensures MatSimplify(Inverse(m).value).Ok? <==> RealMatrix.Det(Values(m, Unvalued)) != 0.0
  {
    if RealMatrix.Det(Values(m, Unvalued)) != 0.0 {
      InverseSimplifies(m);
    } else {
      InverseSingular(m);
    }
  }

  /** A singular matrix of numbers: its inverse does not simplify. */
  lemma InverseSingular(m: Matrix)
    requires IsSquare(m) && |m| >= 2 && IsNumberMatrix(m)
    requires RealMatrix.Det(Values(m, Unvalued)) == 0.0
    ensures Inverse(m).Ok? && MatSimplify(Inverse(m).value) == Err(ZeroDivisionError)
  {
    assert IsLeafMatrix(m);
    var inv := InverseEntries(m);
    InverseEval(m, Unvalued, 0, 0);
    SimplifyGround(inv[0][0], Unvalued);
    assert Simplify(inv[0][0]) == Err(ZeroDivisionError);
    VisitFirstErr(inv, Simplify);
  }

  /** The rank-deficient example [[1, 2], [2, 4]] passes the test. */
  lemma SingularNotRefused()
    ensures RealMatrix.Det(Values([[Num(1.0), Num(2.0)], [Num(2.0), Num(4.0)]], Unvalued)) == 0.0
    ensures Inverse([[Num(1.0), Num(2.0)], [Num(2.0), Num(4.0)]]).Ok?
    ensures MatSimplify(Inverse([[Num(1.0), Num(2.0)], [Num(2.0), Num(4.0)]]).value) == Err(ZeroDivisionError)
  {
    var m := [[Num(1.0), Num(2.0)], [Num(2.0), Num(4.0)]];
    var a := Values(m, Unvalued);
    assert a[0][0] == 1.0 && a[0][1] == 2.0 && a[1][0] == 2.0 && a[1][1] == 4.0;
    assert IsNumberMatrix(m);
    InverseSingular(m);
  }

  /** The determinant of a matrix of numbers simplifies to its value. */
  lemma DetSimplify(m: Matrix)
    requires IsSquare(m) && |m| >= 1 && IsNumberMatrix(m)
    ensures Det(m).Ok? && Simplify(Det(m).value) == Ok(Num(RealMatrix.Det(Values(m, Unvalued))))
  {
    assert IsLeafMatrix(m);
    DetEval(m, Unvalued);
    SimplifyGround(Det(m).value, Unvalued);
  }

  /** The determinant of an identity matrix simplifies to 1, for every
      size. */
  lemma DetIdentityIsOne(n: nat)
    requires n >= 1
    ensures Det(Identity(n)).Ok? && Simplify(Det(Identity(n)).value) == Ok(Num(1.0))
  {
    assert IsNumberMatrix(Identity(n));
    DetSimplify(Identity(n));
    ValuesIdentity(n, Unvalued);
    RealMatrix.DetIdentity(n);
  }

  /** The adjugate formula on numbers: the inverse of a matrix of numbers
      whose determinant is not 0 simplifies without an exception, entry
      (i, j) to the cofactor of (j, i) divided by the determinant. */
  lemma InverseSimplifies(m: Matrix)
    requires IsSquare(m) && |m| >= 2 && IsNumberMatrix(m)
    requires RealMatrix.Det(Values(m, Unvalued)) != 0.0
    ensures Inverse(m).Ok? && |Inverse(m).value| == |m| && IsSquare(Inverse(m).value)
    ensures MatSimplify(Inverse(m).value).Ok?
    ensures forall i, j :: 0 <= i < |m| && 0 <= j < |m| ==>
      MatSimplify(Inverse(m).value).value[i][j] ==
      Num(RealMatrix.Cofactor(Values(m, Unvalued), j, i) / RealMatrix.Det(Values(m, Unvalued)))
  {
    var inv := InverseEntries(m);
    var a := Values(m, Unvalued);
    forall i, j | 0 <= i < |m| && 0 <= j < |m|
      ensures Simplify(inv[i][j]) == Ok(Num(RealMatrix.Cofactor(a, j, i) / RealMatrix.Det(a)))
    {
      InverseSimplifiesEntry(m, i, j);
    }
  }

  lemma InverseSimplifiesEntry(m: Matrix, i: int, j: int)
    requires IsSquare(m) && |m| >= 2 && IsNumberMatrix(m) && 0 <= i < |m| && 0 <= j < |m|
    requires RealMatrix.Det(Values(m, Unvalued)) != 0.0
    ensures Inverse(m).Ok? && |Inverse(m).value| == |m| && |Inverse(m).value[i]| == |m|
    ensures Simplify(Inverse(m).value[i][j]) ==
      Ok(Num(RealMatrix.Cofactor(Values(m, Unvalued), j, i) / RealMatrix.Det(Values(m, Unvalued))))
  {
    assert IsLeafMatrix(m);
    InverseEval(m, Unvalued, i, j);
    SimplifyGround(Inverse(m).value[i][j], Unvalued);
  }

  /** The matrix of numbers with `ds` down its diagonal and 0 elsewhere. */
  function Diagonal(ds: seq<real>): (r: Matrix)
    ensures |r| == |ds| && IsSquare(r) && IsNumberMatrix(r)
  {
    seq(|ds|, i requires 0 <= i < |ds| => seq(|ds|, j requires 0 <= j < |ds| => Num(if i == j then ds[i] else 0.0)))
  }

  lemma ValuesDiagonal(ds: seq<real>, env: Valuation)
    ensures Values(Diagonal(ds), env) == RealMatrix.Diag(ds)
  {
    var a, b := Values(Diagonal(ds), env), RealMatrix.Diag(ds);
    forall i | 0 <= i < |ds|
      ensures a[i] == b[i]
    {
      assert |a[i]| == |b[i]|;
    }
  }

  /** The reciprocal of every entry of a list with no 0 in it. */
  function Reciprocals(ds: seq<real>): (r: seq<real>)
    requires forall i :: 0 <= i < |ds| ==> ds[i] != 0.0
    ensures |r| == |ds| && forall i :: 0 <= i < |ds| ==> r[i] != 0.0 && ds[i] * r[i] == 1.0
  {
    seq(|ds|, i requires 0 <= i < |ds| => 1.0 / ds[i])
  }

  /** The inverse of a diagonal matrix with no 0 on its diagonal simplifies
      to the diagonal of the reciprocals, and the matrix times that inverse
      simplifies to the identity. */
  lemma InverseDiagonal(ds: seq<real>)
    requires |ds| >= 2 && forall i :: 0 <= i < |ds| ==> ds[i] != 0.0
    ensures Inverse(Diagonal(ds)).Ok?
    ensures MatSimplify(Inverse(Diagonal(ds)).value) == Ok(Diagonal(Reciprocals(ds)))
    ensures Multiply(Diagonal(ds), Diagonal(Reciprocals(ds))).Ok?
    ensures MatSimplify(Multiply(Diagonal(ds), Diagonal(Reciprocals(ds))).value) == Ok(Identity(|ds|))
  {
    var es := Reciprocals(ds);
    forall i | 0 <= i < |ds|
      ensures ds[i] * es[i] == 1.0
    {
    }
    MultiplyDiagonal(ds, es);
    InverseDiagonalSimplifies(ds);
  }

  lemma InverseDiagonalSimplifies(ds: seq<real>)
    requires |ds| >= 2 && forall i :: 0 <= i < |ds| ==> ds[i] != 0.0
    ensures Inverse(Diagonal(ds)).Ok?
    ensures MatSimplify(Inverse(Diagonal(ds)).value) == Ok(Diagonal(Reciprocals(ds)))
  {
    InverseDiagonalEntry(ds, 0, 0);
    var inv := Inverse(Diagonal(ds)).value;
    var target := Diagonal(Reciprocals(ds));
    forall i | 0 <= i < |ds|
      ensures |inv[i]| == |target[i]|
    {
      InverseDiagonalEntry(ds, i, 0);
    }
    forall i, j | 0 <= i < |inv| && 0 <= j < |inv[i]|
      ensures Simplify(inv[i][j]) == Ok(target[i][j])
    {
      InverseDiagonalEntry(ds, i, j);
    }
    MatSimplifyTo(inv, target);
  }

  lemma InverseDiagonalEntry(ds: seq<real>, i: int, j: int)
    requires |ds| >= 2 && forall q :: 0 <= q < |ds| ==> ds[q] != 0.0
    requires 0 <= i < |ds| && 0 <= j < |ds|
    ensures Inverse(Diagonal(ds)).Ok? && |Inverse(Diagonal(ds)).value| == |ds|
    ensures |Inverse(Diagonal(ds)).value[i]| == |ds|
    ensures Simplify(Inverse(Diagonal(ds)).value[i][j]) == Ok(Diagonal(Reciprocals(ds))[i][j])
  {
    var m := Diagonal(ds);
    ValuesDiagonal(ds, Unvalued);
    RealMatrix.InverseDiagEntry(ds, i, j);
    InverseEval(m, Unvalued, i, j);
    SimplifyGround(Inverse(m).value[i][j], Unvalued);
  }

  /** The product of two diagonal matrices whose diagonals multiply to 1
      simplifies to the identity. */
  lemma MultiplyDiagonal(ds: seq<real>, es: seq<real>)
    requires |ds| >= 1 && |es| == |ds| && forall i :: 0 <= i < |ds| ==> ds[i] * es[i] == 1.0
    ensures Multiply(Diagonal(ds), Diagonal(es)).Ok?
    ensures MatSimplify(Multiply(Diagonal(ds), Diagonal(es)).value) == Ok(Identity(|ds|))
  {
    var m, r := Diagonal(ds), Diagonal(es);
    assert !Ragged(m, r);
    var p := Multiply(m, r).value;
    forall i, j | 0 <= i < |ds| && 0 <= j < |ds|
      ensures Simplify(p[i][j]) == Ok(Identity(|ds|)[i][j])
    {
      MultiplyDiagonalEntry(ds, es, i, j);
    }
    MatSimplifyTo(p, Identity(|ds|));
  }

  lemma MultiplyDiagonalEntry(ds: seq<real>, es: seq<real>, i: int, j: int)
    requires |ds| >= 1 && |es| == |ds| && forall q :: 0 <= q < |ds| ==> ds[q] * es[q] == 1.0
    requires 0 <= i < |ds| && 0 <= j < |ds|
    ensures Multiply(Diagonal(ds), Diagonal(es)).Ok?
    ensures Simplify(Multiply(Diagonal(ds), Diagonal(es)).value[i][j]) == Ok(Identity(|ds|)[i][j])
  {
    var m, r := Diagonal(ds), Diagonal(es);
    assert !Ragged(m, r);
    var e := Multiply(m, r).value[i][j];
    MultiplyEval(m, r, Unvalued, i, j);
    ValuesDiagonal(ds, Unvalued);
    ValuesDiagonal(es, Unvalued);
    RealMatrix.DotSumDiag(ds, es, i, j, |ds|);
    var v := RealMatrix.DotSum(RealMatrix.Diag(ds), RealMatrix.Diag(es), i, j, |ds|);
    assert Eval(e, Unvalued) == Ok(v);
    assert v == if i == j then 1.0 else 0.0;
    SimplifyGround(e, Unvalued);
  }

  /** The scale test of `mat_inverse`: the identity of size 4 with 10 at
      (1, 1) has as simplified inverse the diagonal (1, 0.1, 1, 1), and the
      matrix times that inverse simplifies to the identity. */
  lemma InverseScaleExample()
    ensures var mat := Identity(4)[1 := Identity(4)[1][1 := Num(10.0)]];
      Inverse(mat).Ok? && MatSimplify(Inverse(mat).value) == Ok(Diagonal([1.0, 0.1, 1.0, 1.0])) &&
      Multiply(mat, Diagonal([1.0, 0.1, 1.0, 1.0])).Ok? &&
      MatSimplify(Multiply(mat, Diagonal([1.0, 0.1, 1.0, 1.0])).value) == Ok(Identity(4))
  {
    var ds := [1.0, 10.0, 1.0, 1.0];
    var mat := Identity(4)[1 := Identity(4)[1][1 := Num(10.0)]];
    var d := Diagonal(ds);
    forall i | 0 <= i < 4
      ensures mat[i] == d[i]
    {
      assert |mat[i]| == |d[i]|;
    }
    assert mat == d;
    assert Reciprocals(ds) == [1.0, 0.1, 1.0, 1.0];
    InverseDiagonal(ds);
  }
}
