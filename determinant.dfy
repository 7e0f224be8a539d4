/** The symbolic matrix builders and the determinant that both GenMath files
    share line for line: `mat_identity`, `mat_symbolic`, `mat_determinant`
    and `mat_cofactor_signs`. The determinant does not compute a number: it
    builds a tree of `Multiply`, `Add` and `Subtract` nodes over the entries. */
module Determinant {
  import opened Python
  import opened Expressions
  import opened MatrixLists
  import RealMatrix

  /** `mat_identity`: ones on the diagonal, zeros elsewhere. */
  function Identity(n: nat): (r: Matrix)
    ensures |r| == n && IsSquare(r)
  {
    seq(n, i requires 0 <= i < n => seq(n, j requires 0 <= j < n => Num(if i == j then 1.0 else 0.0)))
  }

  method MatIdentity(size: int) returns (r: Matrix)
    ensures r == Identity(if size < 0 then 0 else size)
  {
    var n: nat := if size < 0 then 0 else size;
    r := [];
    for i := 0 to n
      invariant r == Identity(n)[..i]
    {
      assert Identity(n)[..i + 1] == Identity(n)[..i] + [Identity(n)[i]];
      var row := [];
      for j := 0 to n
        invariant row == Identity(n)[i][..j]
      {
        row := row + [Num(if i == j then 1.0 else 0.0)];
      }
      assert row == Identity(n)[i];
      r := r + [row];
    }
    assert Identity(n)[..n] == Identity(n);
  }

  /** `mat_symbolic`: the matrix whose entry (i, j) is the symbol name[i][j]. */
  function Symbolic(n: nat, name: string): (r: Matrix)
    ensures |r| == n
  {
    seq(n, i requires 0 <= i < n => seq(n, j requires 0 <= j < n => Elem(i, j, name)))
  }

  method MatSymbolic(size: int, name: string) returns (r: Matrix)
    ensures r == Symbolic(if size < 0 then 0 else size, name)
  {
    var n: nat := if size < 0 then 0 else size;
    r := [];
    for i := 0 to n
      invariant r == Symbolic(n, name)[..i]
    {
      assert Symbolic(n, name)[..i + 1] == Symbolic(n, name)[..i] + [Symbolic(n, name)[i]];
      var row := [];
      for j := 0 to n
        invariant row == Symbolic(n, name)[i][..j]
      {
        row := row + [Elem(i, j, name)];
      }
      assert row == Symbolic(n, name)[i];
      r := r + [row];
    }
    assert Symbolic(n, name)[..n] == Symbolic(n, name);
  }

  /** The library's rank test on a symbolic matrix gives back its size. */
  lemma RankSymbolic(n: nat, name: string)
    ensures Rank(Symbolic(n, name)) == n
  {
    assert IsSquare(Symbolic(n, name));
  }

  /** `mat_determinant`: ValueError for a matrix that is not square, the
      entry for 1-by-1, `m00*m11 - m01*m10` for 2-by-2, an IndexError for no
      rows (the expansion reads `m[0]`), and otherwise the expansion along
      the first row. */
  function Det(m: Matrix): (r: Result<Expr>)
    ensures r.Ok? <==> IsSquare(m) && |m| >= 1
    ensures r.Err? ==> r.error == (if IsSquare(m) then IndexError else ValueError)
    decreases |m|, 2, 0
  {
    var n := Rank(m);
    if n == -1 then Err(ValueError)
    else if n == 1 then Ok(m[0][0])
    else if n == 2 then Ok(Sub(Mul(m[0][0], m[1][1]), Mul(m[0][1], m[1][0])))
    else if n == 0 then Err(IndexError)
    else Expansion(m, n)
  }

  /** The first `k` columns of the expansion loop: each term is
      `Multiply(m[0][j], det(minor(m, 0, j)))`, the first one kept as it is,
      then added for even `j` and subtracted for odd `j`. */
  function Expansion(m: Matrix, k: int): (r: Result<Expr>)
    requires IsSquare(m) && |m| >= 3 && 1 <= k <= |m|
    ensures r.Ok?
    decreases |m|, 1, k
  {
    if k == 1 then Term(m, 0)
    else
      match Expansion(m, k - 1)
      case Err(e) => Err(e)
      case Ok(acc) =>
        match Term(m, k - 1)
        case Err(e) => Err(e)
        case Ok(t) => Ok(if (k - 1) % 2 == 0 then Add(acc, t) else Sub(acc, t))
  }

  /** One term of the expansion. */
  function Term(m: Matrix, j: int): (r: Result<Expr>)
    requires IsSquare(m) && |m| >= 3 && 0 <= j < |m|
    ensures r.Ok?
    decreases |m|, 0, 0
  {
    MinorSquare(m, 0, j);
    match Det(Minor(m, 0, j))
    case Err(e) => Err(e)
    case Ok(d) => Ok(Mul(m[0][j], d))
  }

  method MatDeterminant(m: Matrix) returns (r: Result<Expr>)
    ensures r == Det(m)
    decreases |m|
  {
    var n := MatRank(m);
    if n == -1 {
      return Err(ValueError);
    }
    if n == 1 {
      return Ok(m[0][0]);
    }
    if n == 2 {
      return Ok(Sub(Mul(m[0][0], m[1][1]), Mul(m[0][1], m[1][0])));
    }
    if n == 0 {
      return Err(IndexError);
    }
    var result := Num(0.0);
    for j := 0 to |m[0]|
      invariant j >= 1 ==> Expansion(m, j) == Ok(result)
    {
      MinorSquare(m, 0, j);
      var minor := MatMinor(m, 0, j);
      var minorDet := MatDeterminant(minor);
      var term := Mul(m[0][j], minorDet.value);
      if j == 0 {
        result := term;
      } else if j % 2 == 0 {
        result := Add(result, term);
      } else {
        result := Sub(result, term);
      }
    }
    return Ok(result);
  }

  /** Every entry is a number or a matrix element. */
  predicate IsLeafMatrix(m: Matrix) {
    forall i, j :: 0 <= i < |m| && 0 <= j < |m[i]| ==> IsLeafValue(m[i][j])
  }

  /** Every entry is a number. */
  predicate IsNumberMatrix(m: Matrix) {
    forall i, j :: 0 <= i < |m| && 0 <= j < |m[i]| ==> m[i][j].Num?
  }

  /** The value of a leaf once every symbol has a value. */
  function LeafValue(e: Expr, env: Valuation): real {
    match e
    case Num(x) => x
    case Elem(i, j, name) => env(i, j, name)
    case _ => 0.0
  }

  function LeafFn(env: Valuation): Expr -> real {
    e => LeafValue(e, env)
  }

  /** The real matrix a matrix of leaves stands for under `env`. */
  function Values(m: Matrix, env: Valuation): seq<seq<real>> {
    MapMatrix(m, LeafFn(env))
  }

  /** A leaf entry evaluates to its value in `Values`. */
  lemma LeafEntryEval(m: Matrix, env: Valuation, i: int, j: int)
    requires IsLeafMatrix(m) && 0 <= i < |m| && 0 <= j < |m[i]|
    ensures Eval(m[i][j], env) == Ok(Values(m, env)[i][j])
  {
    var e := m[i][j];
    assert IsLeafValue(e);
    assert Values(m, env)[i][j] == LeafValue(e, env);
  }

  lemma ValuesIdentity(n: nat, env: Valuation)
    ensures Values(Identity(n), env) == RealMatrix.Identity(n)
  {
    var a := Values(Identity(n), env);
    var b := RealMatrix.Identity(n);
    forall i | 0 <= i < n
      ensures a[i] == b[i]
    {
      assert |a[i]| == |b[i]|;
    }
  }

  /** On a matrix of numbers and symbols the determinant tree is arithmetic
      without division, and under every valuation of the symbols it
      evaluates to the Laplace determinant of the valued matrix. */
  lemma DetEval(m: Matrix, env: Valuation)
    requires IsSquare(m) && |m| >= 1 && IsLeafMatrix(m)
    ensures IsSquare(Values(m, env)) && |Values(m, env)| == |m|
    ensures IsArithmetic(Det(m).value) && DivisionFree(Det(m).value)
    ensures IsNumberMatrix(m) ==> IsGround(Det(m).value)
    ensures Eval(Det(m).value, env).Ok?
    ensures Eval(Det(m).value, env).value == RealMatrix.Det(Values(m, env))
  {
    DetShape(m);
    ValuesValued(m, env);
    DetValue(m, env, Values(m, env));
  }

  /** `a` is the real matrix that `m` evaluates to under `env`, entry by entry. */
  predicate Valued(m: Matrix, env: Valuation, a: seq<seq<real>>) {
    |a| == |m| &&
    (forall i :: 0 <= i < |m| ==> |a[i]| == |m[i]|) &&
    forall i, j {:trigger Eval(m[i][j], env)} :: 0 <= i < |m| && 0 <= j < |m[i]| ==> Eval(m[i][j], env) == Ok(a[i][j])
  }

  lemma ValuesValued(m: Matrix, env: Valuation)
    requires IsLeafMatrix(m)
    ensures Valued(m, env, Values(m, env))
  {
    forall i, j | 0 <= i < |m| && 0 <= j < |m[i]|
      ensures Eval(m[i][j], env) == Ok(Values(m, env)[i][j])
    {
      LeafEntryEval(m, env, i, j);
    }
  }

  /** Taking the same minor of a matrix of trees and of its values keeps
      the one the value of the other. */
  lemma ValuedMinor(m: Matrix, env: Valuation, a: seq<seq<real>>, i: int, j: int)
    requires IsSquare(m) && 0 <= i < |m| && 0 <= j < |m| && Valued(m, env, a)
    ensures Valued(Minor(m, i, j), env, Minor(a, i, j))
  {
    MinorSquare(m, i, j);
    var mi, ai := Minor(m, i, j), Minor(a, i, j);
    forall r | 0 <= r < |mi|
      ensures |ai[r]| == |mi[r]|
    {
      assert ai[r] == DropAt(a[Skip(r, i)], j);
    }
    forall r, c | 0 <= r < |mi| && 0 <= c < |mi[r]|
      ensures Eval(mi[r][c], env) == Ok(ai[r][c])
    {
      MinorEntry(m, i, j, r, c);
      MinorEntry(a, i, j, r, c);
    }
  }

  /** The determinant tree evaluates to the Laplace determinant of any
      matrix that the entries evaluate to. */
  lemma {:induction false} DetValue(m: Matrix, env: Valuation, a: seq<seq<real>>)
    requires IsSquare(m) && |m| >= 1 && IsLeafMatrix(m) && Valued(m, env, a)
    ensures IsSquare(a) && Det(m).Ok?
    ensures Eval(Det(m).value, env) == Ok(RealMatrix.Det(a))
    decreases |m|, 2, 0
  {
    assert Rank(m) == |m|;
    if |m| == 1 {
      assert Eval(m[0][0], env) == Ok(a[0][0]);
    } else if |m| == 2 {
      Det2Value(m, env, a);
    } else {
      ExpansionValue(m, env, a);
    }
  }

  /** The case of three rows or more of `DetValue`: the expansion along the
      first row, term by term. */
  lemma {:induction false} ExpansionValue(m: Matrix, env: Valuation, a: seq<seq<real>>)
    requires IsSquare(m) && |m| >= 3 && IsLeafMatrix(m) && Valued(m, env, a)
    ensures IsSquare(a) && Det(m).Ok?
    ensures Eval(Det(m).value, env) == Ok(RealMatrix.Det(a))
    decreases |m|, 1, 1
  {
    ExpansionFirst(m, env, a);
    var k := 1;
    while k < |m|
      invariant 1 <= k <= |m| && Expansion(m, k).Ok?
      invariant Eval(Expansion(m, k).value, env) == Ok(RealMatrix.Expansion(a, k))
    {
      ExpansionNext(m, env, a, k);
      k := k + 1;
    }
    assert Rank(m) == |m| && Det(m) == Expansion(m, |m|);
  }

  /** The expansion of the first term alone is that term. */
  lemma {:induction false} ExpansionFirst(m: Matrix, env: Valuation, a: seq<seq<real>>)
    requires IsSquare(m) && |m| >= 3 && IsLeafMatrix(m) && Valued(m, env, a)
    ensures IsSquare(a) && Expansion(m, 1).Ok?
    ensures Eval(Expansion(m, 1).value, env) == Ok(RealMatrix.Expansion(a, 1))
    decreases |m|, 1, 0
  {
    TermEval(m, env, a, 0);
    assert Expansion(m, 1) == Term(m, 0);
  }

  /** From the first k terms of the expansion to the first k + 1. */
  lemma {:induction false} ExpansionNext(m: Matrix, env: Valuation, a: seq<seq<real>>, k: int)
    requires IsSquare(m) && |m| >= 3 && 1 <= k < |m| && IsLeafMatrix(m) && Valued(m, env, a)
    requires Expansion(m, k).Ok? && Eval(Expansion(m, k).value, env) == Ok(RealMatrix.Expansion(a, k))
    ensures IsSquare(a) && Expansion(m, k + 1).Ok?
    ensures Eval(Expansion(m, k + 1).value, env) == Ok(RealMatrix.Expansion(a, k + 1))
    decreases |m|, 1, 0
  {
    TermEval(m, env, a, k);
    ExpansionStep(m, env, a, k + 1);
  }

  /** The 2-by-2 case of `DetValue`. */
  lemma Det2Value(m: Matrix, env: Valuation, a: seq<seq<real>>)
    requires IsSquare(m) && |m| == 2 && Valued(m, env, a)
    ensures IsSquare(a) && Det(m).Ok?
    ensures Eval(Det(m).value, env) == Ok(RealMatrix.Det(a))
  {
    var p := Mul(m[0][0], m[1][1]);
    var q := Mul(m[0][1], m[1][0]);
    EvalOperands(p, env, a[0][0], a[1][1]);
    EvalOperands(q, env, a[0][1], a[1][0]);
    EvalOperands(Sub(p, q), env, a[0][0] * a[1][1], a[0][1] * a[1][0]);
    assert Rank(m) == 2 && Det(m).value == Sub(p, q);
    assert RealMatrix.Det(a) == a[0][0] * a[1][1] - a[0][1] * a[1][0];
  }

  /** One step of the expansion in `DetValue`, from the first k - 1 terms
      to the first k. */
  lemma ExpansionStep(m: Matrix, env: Valuation, a: seq<seq<real>>, k: int)
    requires IsSquare(m) && |m| >= 3 && 2 <= k <= |m| && IsSquare(a) && |a| == |m|
    requires Expansion(m, k - 1).Ok? && Term(m, k - 1).Ok?
    requires Eval(Expansion(m, k - 1).value, env) == Ok(RealMatrix.Expansion(a, k - 1))
    requires Eval(Term(m, k - 1).value, env) == Ok(RealMatrix.Term(a, k - 1))
    ensures Expansion(m, k).Ok?
    ensures Eval(Expansion(m, k).value, env) == Ok(RealMatrix.Expansion(a, k))
  {
    var acc := Expansion(m, k - 1).value;
    var t := Term(m, k - 1).value;
    assert Expansion(m, k).value == if (k - 1) % 2 == 0 then Add(acc, t) else Sub(acc, t);
    ExpansionStepValue(acc, t, env, a, k);
  }

  /** The arithmetic half of `ExpansionStep`. */
  lemma ExpansionStepValue(acc: Expr, t: Expr, env: Valuation, a: seq<seq<real>>, k: int)
    requires IsSquare(a) && |a| >= 3 && 2 <= k <= |a|
    requires Eval(acc, env) == Ok(RealMatrix.Expansion(a, k - 1))
    requires Eval(t, env) == Ok(RealMatrix.Term(a, k - 1))
    ensures Eval(if (k - 1) % 2 == 0 then Add(acc, t) else Sub(acc, t), env) == Ok(RealMatrix.Expansion(a, k))
  {
    var x := RealMatrix.Expansion(a, k - 1);
    var y := RealMatrix.Term(a, k - 1);
    var op := if (k - 1) % 2 == 0 then Add(acc, t) else Sub(acc, t);
    EvalOperands(op, env, x, y);
    assert RealMatrix.Expansion(a, k) == if (k - 1) % 2 == 0 then x + y else x - y;
  }

  /** Term j of the expansion evaluates to entry (0, j) of the valued
      matrix times the determinant of its minor. */
  lemma {:induction false} TermEval(m: Matrix, env: Valuation, a: seq<seq<real>>, j: int)
    requires IsSquare(m) && |m| >= 3 && 0 <= j < |m| && IsLeafMatrix(m) && Valued(m, env, a)
    ensures IsSquare(a) && Term(m, j).Ok?
    ensures Eval(Term(m, j).value, env) == Ok(RealMatrix.Term(a, j))
    decreases |m|, 0, 0
  {
    TermShape(m, j);
    MinorSquare(m, 0, j);
    MinorLeaves(m, 0, j);
    ValuedMinor(m, env, a, 0, j);
    var mi := Minor(m, 0, j);
    DetValue(mi, env, Minor(a, 0, j));
    var d := Det(mi).value;
    assert Term(m, j).value == Mul(m[0][j], d);
    TermValue(m, env, a, j, d);
  }

  /** The determinant tree of a matrix of numbers and symbols uses only
      numbers, symbols, negation, addition, subtraction and multiplication,
      and only numbers when every entry is a number. */
  lemma {:induction false} DetShape(m: Matrix)
    requires IsSquare(m) && |m| >= 1 && IsLeafMatrix(m)
    ensures IsArithmetic(Det(m).value) && DivisionFree(Det(m).value)
    ensures IsNumberMatrix(m) ==> IsGround(Det(m).value)
    decreases |m|, 2, 0
  {
    assert Rank(m) == |m|;
    if |m| >= 3 {
      assert Det(m) == Expansion(m, |m|);
      ExpansionShape(m, |m|);
    }
  }

  lemma {:induction false} ExpansionShape(m: Matrix, k: int)
    requires IsSquare(m) && |m| >= 3 && 1 <= k <= |m| && IsLeafMatrix(m)
    ensures IsArithmetic(Expansion(m, k).value) && DivisionFree(Expansion(m, k).value)
    ensures IsNumberMatrix(m) ==> IsGround(Expansion(m, k).value)
    decreases |m|, 1, k
  {
    TermShape(m, k - 1);
    if k > 1 {
      ExpansionShape(m, k - 1);
      var acc := Expansion(m, k - 1).value;
      var t := Term(m, k - 1).value;
      assert Expansion(m, k).value == if (k - 1) % 2 == 0 then Add(acc, t) else Sub(acc, t);
    }
  }

  lemma {:induction false} TermShape(m: Matrix, j: int)
    requires IsSquare(m) && |m| >= 3 && 0 <= j < |m| && IsLeafMatrix(m)
    ensures IsArithmetic(Term(m, j).value) && DivisionFree(Term(m, j).value)
    ensures IsNumberMatrix(m) ==> IsGround(Term(m, j).value)
    decreases |m|, 0, 0
  {
    MinorSquare(m, 0, j);
    var mi := Minor(m, 0, j);
    MinorLeaves(m, 0, j);
    if IsNumberMatrix(m) {
      MinorNumbers(m, 0, j);
    }
    DetShape(mi);
    assert Term(m, j).value == Mul(m[0][j], Det(mi).value);
  }

  /** The arithmetic half of `TermEval`, once the minor's tree is known. */
  lemma TermValue(m: Matrix, env: Valuation, a: seq<seq<real>>, j: int, d: Expr)
    requires IsSquare(m) && |m| >= 3 && 0 <= j < |m| && Valued(m, env, a)
    requires Eval(d, env) == Ok(RealMatrix.Det(Minor(a, 0, j)))
    ensures IsSquare(a)
    ensures Eval(Mul(m[0][j], d), env) == Ok(RealMatrix.Term(a, j))
  {
    var x := a[0][j];
    var y := RealMatrix.Det(Minor(a, 0, j));
    assert RealMatrix.Term(a, j) == x * y;
    EvalOperands(Mul(m[0][j], d), env, x, y);
  }

  lemma MinorLeaves(m: Matrix, i: int, j: int)
    requires IsLeafMatrix(m)
    ensures IsLeafMatrix(Minor(m, i, j))
  {
    var mi: Matrix := Minor(m, i, j);
    forall r, c | 0 <= r < |mi| && 0 <= c < |mi[r]|
      ensures IsLeafValue(mi[r][c])
    {
      MinorEntry(m, i, j, r, c);
    }
  }

  lemma MinorNumbers(m: Matrix, i: int, j: int)
    requires IsNumberMatrix(m)
    ensures IsNumberMatrix(Minor(m, i, j))
  {
    var mi: Matrix := Minor(m, i, j);
    forall r, c | 0 <= r < |mi| && 0 <= c < |mi[r]|
      ensures mi[r][c].Num?
    {
      MinorEntry(m, i, j, r, c);
    }
  }

  lemma MinorValues(m: Matrix, env: Valuation, i: int, j: int)
    ensures Minor(Values(m, env), i, j) == Values(Minor(m, i, j), env)
  {
    MinorMap(m, LeafFn(env), i, j);
  }

  /** The determinant of the minor of entry (i, j). */
  function MinorDet(a: seq<seq<real>>, i: int, j: int): real
    requires IsSquare(a) && |a| >= 2 && 0 <= i < |a| && 0 <= j < |a|
  {
    MinorSquare(a, i, j);
    RealMatrix.Det(Minor(a, i, j))
  }

  lemma MinorDetUnfold(a: seq<seq<real>>, i: int, j: int)
    requires IsSquare(a) && |a| >= 2 && 0 <= i < |a| && 0 <= j < |a|
    ensures IsSquare(Minor(a, i, j)) && |Minor(a, i, j)| == |a| - 1
    ensures MinorDet(a, i, j) == RealMatrix.Det(Minor(a, i, j))
  {
    MinorSquare(a, i, j);
  }

  /** The cofactor is the determinant of the minor, negated when i + j is
      odd. */
  lemma CofactorUnfold(a: seq<seq<real>>, i: int, j: int)
    requires IsSquare(a) && |a| >= 2 && 0 <= i < |a| && 0 <= j < |a|
    ensures RealMatrix.Cofactor(a, i, j) == if (i + j) % 2 == 1 then -MinorDet(a, i, j) else MinorDet(a, i, j)
  {
  }

  /** The determinant tree of a minor evaluates to the determinant of the
      valued minor. */
  lemma MinorTreeEval(m: Matrix, env: Valuation, i: int, j: int)
    requires IsSquare(m) && |m| >= 2 && IsLeafMatrix(m) && 0 <= i < |m| && 0 <= j < |m|
    ensures IsSquare(Values(m, env)) && |Values(m, env)| == |m|
    ensures Det(Minor(m, i, j)).Ok? && IsArithmetic(Det(Minor(m, i, j)).value)
    ensures IsNumberMatrix(m) ==> IsGround(Det(Minor(m, i, j)).value)
    ensures Eval(Det(Minor(m, i, j)).value, env) == Ok(MinorDet(Values(m, env), i, j))
  {
    MinorSquare(m, i, j);
    var mi := Minor(m, i, j);
    MinorLeaves(m, i, j);
    if IsNumberMatrix(m) {
      MinorNumbers(m, i, j);
    }
    DetEval(mi, env);
    MinorValues(m, env, i, j);
    MinorDetUnfold(Values(m, env), i, j);
  }

  /** `mat_cofactor_signs`: the entries with odd i + j wrapped in `Negate`. */
  function CofactorSigns(m: Matrix): (r: Matrix)
  {
    MapIndexed(m, SignedEntry)
  }

  function SignedEntry(v: Expr, i: int, j: int): Expr {
    if (i + j) % 2 == 0 then v else Neg(v)
  }

  /** The entries `f` maps each entry and its position to. */
  function MapIndexed(m: Matrix, f: (Expr, int, int) -> Expr): (r: Matrix)
  {
    seq(|m|, i requires 0 <= i < |m| => seq(|m[i]|, j requires 0 <= j < |m[i]| => f(m[i][j], i, j)))
  }

  /** Cofactor signs keep the shape and flip the value of exactly the
      entries whose row and column sum to an odd number. */
  lemma CofactorSignsEval(m: Matrix, env: Valuation, i: int, j: int)
    requires 0 <= i < |m| && 0 <= j < |m[i]|
    ensures |CofactorSigns(m)| == |m| && |CofactorSigns(m)[i]| == |m[i]|
    ensures Eval(m[i][j], env).Ok? ==> Eval(CofactorSigns(m)[i][j], env).Ok?
    ensures Eval(m[i][j], env).Ok? ==>
      Eval(CofactorSigns(m)[i][j], env).value == if (i + j) % 2 == 0 then Eval(m[i][j], env).value else -Eval(m[i][j], env).value
  {
    assert CofactorSigns(m)[i][j] == SignedEntry(m[i][j], i, j);
  }

  method MatCofactorSigns(m: Matrix) returns (r: Matrix)
    ensures r == CofactorSigns(m)
  {
    var f: (Expr, int, int) -> Result<Expr> := (v, i, j) => Ok(SignedEntry(v, i, j));
    var res := MatVisitIndex(m, f);
    assert res.Ok?;
    r := res.value;
    assert |r| == |CofactorSigns(m)|;
    forall i | 0 <= i < |m|
      ensures r[i] == CofactorSigns(m)[i]
    {
      assert |r[i]| == |CofactorSigns(m)[i]|;
      forall j | 0 <= j < |m[i]|
        ensures r[i][j] == CofactorSigns(m)[i][j]
      {
        assert r[i][j] == f(m[i][j], i, j).value;
      }
    }
  }
}
