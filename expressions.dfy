/** The expression trees that both GenMath files build: numeric leaves,
    symbolic matrix elements and the five operator nodes; and the ordinary
    real arithmetic that a tree of numbers stands for. */
module Expressions {
  import opened Python

  /** A node of an expression tree. `Num` is a Python int or float,
      `Elem` a `MatrixElement`, `Other` any other Python value that was put
      into a tree; the rest are the operator classes `Negate`, `Add`,
      `Subtract`, `Multiply` and `Divide`. */
  datatype Expr =
    | Num(n: real)
    | Elem(i: int, j: int, name: string)
    | Other
    | Neg(lhs: Expr)
    | Add(lhs: Expr, rhs: Expr)
    | Sub(lhs: Expr, rhs: Expr)
    | Mul(lhs: Expr, rhs: Expr)
    | Div(lhs: Expr, rhs: Expr)

  /** A matrix as the library keeps it: a list of rows. */
  type Matrix = seq<seq<Expr>>

  /** What `simplify` may return: a number or a matrix element. */
  predicate IsLeafValue(e: Expr) {
    e.Num? || e.Elem?
  }

  /** A tree whose every leaf is a number or a matrix element. */
  predicate IsArithmetic(e: Expr) {
    match e
    case Num(_) => true
    case Elem(_, _, _) => true
    case Other => false
    case Neg(a) => IsArithmetic(a)
    case Add(a, b) => IsArithmetic(a) && IsArithmetic(b)
    case Sub(a, b) => IsArithmetic(a) && IsArithmetic(b)
    case Mul(a, b) => IsArithmetic(a) && IsArithmetic(b)
    case Div(a, b) => IsArithmetic(a) && IsArithmetic(b)
  }

  /** A tree whose every leaf is a number. */
  predicate IsGround(e: Expr) {
    match e
    case Num(_) => true
    case Elem(_, _, _) => false
    case Other => false
    case Neg(a) => IsGround(a)
    case Add(a, b) => IsGround(a) && IsGround(b)
    case Sub(a, b) => IsGround(a) && IsGround(b)
    case Mul(a, b) => IsGround(a) && IsGround(b)
    case Div(a, b) => IsGround(a) && IsGround(b)
  }

  /** A tree with no `Divide` node. */
  predicate DivisionFree(e: Expr) {
    match e
    case Num(_) => true
    case Elem(_, _, _) => true
    case Other => true
    case Neg(a) => DivisionFree(a)
    case Add(a, b) => DivisionFree(a) && DivisionFree(b)
    case Sub(a, b) => DivisionFree(a) && DivisionFree(b)
    case Mul(a, b) => DivisionFree(a) && DivisionFree(b)
    case Div(_, _) => false
  }

  /** A value for every symbolic matrix element `name[i][j]`. */
  type Valuation = (int, int, string) -> real

  /** Reference semantics: the real number a tree denotes once every symbol
      is given a value, operands evaluated left to right; a foreign value
      cannot take part in arithmetic, and division by zero fails. */
  function Eval(e: Expr, env: Valuation): Result<real> {
    match e
    case Num(x) => Ok(x)
    case Elem(i, j, name) => Ok(env(i, j, name))
    case Other => Err(TypeError)
    case Neg(a) =>
      (match Eval(a, env)
       case Err(err) => Err(err)
       case Ok(x) => Ok(-x))
    case Add(a, b) => EvalBinary(e, Eval(a, env), Eval(b, env))
    case Sub(a, b) => EvalBinary(e, Eval(a, env), Eval(b, env))
    case Mul(a, b) => EvalBinary(e, Eval(a, env), Eval(b, env))
    case Div(a, b) => EvalBinary(e, Eval(a, env), Eval(b, env))
  }

  /** One binary node of `Eval`, given its evaluated operands. */
  function EvalBinary(op: Expr, l: Result<real>, r: Result<real>): Result<real>
    requires op.Add? || op.Sub? || op.Mul? || op.Div?
  {
    match l
    case Err(err) => Err(err)
    case Ok(x) =>
      match r
      case Err(err) => Err(err)
      case Ok(y) =>
        if op.Add? then Ok(x + y)
        else if op.Sub? then Ok(x - y)
        else if op.Mul? then Ok(x * y)
        else if y == 0.0 then Err(ZeroDivisionError)
        else Ok(x / y)
  }

  /** Arithmetic is exact: a tree of numbers and symbols without division
      always has a value. */
  lemma {:induction false} EvalDivisionFree(e: Expr, env: Valuation)
    requires IsArithmetic(e) && DivisionFree(e)
    ensures Eval(e, env).Ok?
  {
    match e
    case Num(_) =>
    case Elem(_, _, _) =>
    case Neg(a) => EvalDivisionFree(a, env);
    case Add(a, b) => EvalDivisionFree(a, env); EvalDivisionFree(b, env);
    case Sub(a, b) => EvalDivisionFree(a, env); EvalDivisionFree(b, env);
    case Mul(a, b) => EvalDivisionFree(a, env); EvalDivisionFree(b, env);
  }

  /** The only exceptions evaluation can raise are a foreign value in the
      tree (TypeError) and division by zero; a tree of numbers and matrix
      elements raises only the latter. */
  lemma {:induction false} EvalErrors(e: Expr, env: Valuation)
    ensures Eval(e, env).Err? ==> Eval(e, env).error in {TypeError, ZeroDivisionError}
    ensures Eval(e, env).Err? && IsArithmetic(e) ==> Eval(e, env).error == ZeroDivisionError
  {
    match e
    case Num(_) =>
    case Elem(_, _, _) =>
    case Other =>
    case Neg(a) => EvalErrors(a, env);
    case Add(a, b) => EvalErrors(a, env); EvalErrors(b, env);
    case Sub(a, b) => EvalErrors(a, env); EvalErrors(b, env);
    case Mul(a, b) => EvalErrors(a, env); EvalErrors(b, env);
    case Div(a, b) => EvalErrors(a, env); EvalErrors(b, env);
  }

  /** How a binary node evaluates once both operands have values. */
  lemma EvalOperands(op: Expr, env: Valuation, x: real, y: real)
    requires op.Add? || op.Sub? || op.Mul?
    requires Eval(op.lhs, env).Ok? && Eval(op.lhs, env).value == x
    requires Eval(op.rhs, env).Ok? && Eval(op.rhs, env).value == y
    ensures Eval(op, env).Ok?
    ensures Eval(op, env).value == if op.Add? then x + y else if op.Sub? then x - y else x * y
  {
    assert Eval(op, env) == EvalBinary(op, Eval(op.lhs, env), Eval(op.rhs, env));
  }
}
