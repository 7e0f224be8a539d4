# RenderWindow core, modelled in Dafny

RenderWindow is a small OpenGL playground. This project models the parts of
it that compute things. Window set-up and drawing are not modelled.

- **GenMath** (`util/GenMath.py`, and the older `GenMath.py` at the root).
  A symbolic matrix library.
  - Matrices are lists of rows whose entries are expression trees: numbers,
    symbolic elements `m[i][j]`, and `Negate`, `Add`, `Subtract`, `Multiply`
    and `Divide` nodes.
  - `simplify` folds a tree with the operators' `apply`. The newer copy
    adds short cuts for 0 and 1.
  - The determinant is built by Laplace expansion along the first row.
  - The inverse is built from cofactors, the transpose and a division by
    the determinant.
  - Every Python exception a call can raise (`TypeError`, `ValueError`,
    `IndexError`, `ZeroDivisionError`) is an `Err` result. Each is raised in
    the order the Python code would raise it.
  - A separate real-valued determinant and an evaluation of trees under a
    valuation of the symbols give the trees a meaning. The main theorems
    follow from it:
    - `simplify` is sound, and complete on trees of numbers.
    - The determinant tree evaluates to the determinant.
    - Every entry of `mat_inverse` evaluates to cofactor / determinant
      exactly when the determinant is not 0.
    - Every entry of `mat_multiply` evaluates to the entry of the real
      matrix product.
    - For a diagonal matrix with no 0, such as the scaled identity of the
      inverse tests, the simplified inverse is the diagonal of the
      reciprocals, and the matrix times it simplifies to the identity.
- **Parametric surfaces and grids** (`util/module_parametric.py`,
  `util/module_gl_parametric.py`, the top of `util/renderwindow.py`).
  - A surface is a function of (u, v).
  - A grid of `usteps` × `vsteps` quads is sampled row by row into a flat
    list of components.
  - Six indices per quad describe two triangles.
  - The generator loops are methods proved equal to reference functions.
    Those functions are then proved to:
    - place component i of vertex (u, v) at `(u + v(usteps+1))·n + i`;
    - keep every index inside the vertex range;
    - raise `ZeroDivisionError` or `IndexError` exactly where Python would.
- **Transforms** (`util/module_matrix.py`). The scale, translation,
  perspective and look-at matrices, for row vectors. They are proved to
  compose and to act on points as intended.
- **Scene serialization** (`cpp/geometric.cpp`).
  - Boxes, spheres and meshes are made by one of two abstract factories.
  - They are kept in a world that create commands extend and undo.
  - They are saved through a byte stream.
  - A `MemoryStream` class with a byte-sequence field, a `World` class and
    the two command classes change state in place.
  - The bytes written are proved to be a format that a parser reads back
    into the serializable objects, in order.

Several functions are the specifications of loop methods. Each has no
contract of its own; its method is proved equal to it, and lemmas state what
it means:
- `GenMath.Dot`: the inner loop of `MatMultiply`; its meaning is given by
  `GenMath.DotValue` and `GenMath.MultiplyEval`.
- `GenMath.Cofactor`: one step of `MatCofactorMatrix` (`GenMath.CofactorOf`);
  its meaning is given by `GenMath.CofactorEval`.
- `LegacyGenMath.IsEqual`: specifies `LegacyGenMath.MatIsEqual`; its meaning
  is given by `LegacyGenMath.IsEqualCovers` and `IsEqualSameShape`.
- `LegacyGenMath.Inverse`: specifies `LegacyGenMath.MatInverse`; its meaning
  is given by `InverseOk`, `InverseEntries` and `InverseEval`.
- `Determinant.CofactorSigns`: specifies `Determinant.MatCofactorSigns`; its
  meaning is given by `Determinant.CofactorSignsEval`.
- `ParametricGl.ParametricVecN`: specifies `CreateParametricVecN`; its
  meaning is given by `VecNOutcome` and `VecNAt`.
- `Geometric.SaveBytes`: the bytes `SaveEverything` appends; its meaning is
  given by `Geometric.SaveParseRoundTrip`.

`Geometric.Parse` is not a model of the C++ `Load`, which only throws. It
is an independent decoder for the byte format that `Save` writes. It serves
as `Save`'s partner in the round-trip lemmas.

Integers are unbounded and reals exact. Where the source relies on fixed
width, the model spells it out:
- the 32-bit `uint32_t` returned by `MemoryStream::size`;
- the 4-byte little-endian `float`/`int` fields of the C++ objects, which
  are kept as bit patterns.

## Model

| member | source | states |
|---|---|---|
| Expressions.EvalDivisionFree | util/GenMath.py:68-149 | a tree of numbers and symbols without division always evaluates, under every valuation |
| Expressions.EvalErrors | util/GenMath.py:68-149 | evaluation raises only TypeError (a foreign leaf) or ZeroDivisionError, and only the latter on arithmetic trees |
| Expressions.EvalOperands | util/GenMath.py:83-149 | an Add, Subtract or Multiply node evaluates to the sum, difference or product of its operands' values |
| RealMatrix.Identity | util/GenMath.py:314-323 | the real identity is square of the requested size |
| RealMatrix.DetIdentity | util/GenMath.py:586-590 | the real determinant of the identity is 1 for every size from 1, a corollary of DetDiag with all ones |
| RealMatrix.ProductDropAt | util/GenMath.py:259-299 | the product of a list is any one element times the product of the others |
| RealMatrix.DetDiag | util/GenMath.py:259-299 | the real determinant of a diagonal matrix is the product of its diagonal |
| RealMatrix.DetMinorDiag | util/GenMath.py:359-372 | a minor of a diagonal matrix has determinant the product of the other diagonal entries on the diagonal, and 0 off it |
| RealMatrix.CofactorDiag | util/GenMath.py:243-257 | a cofactor of a diagonal matrix is the product of the other diagonal entries on the diagonal, and 0 off it |
| RealMatrix.InverseDiagEntry | util/GenMath.py:325-357 | for a diagonal with no 0, the determinant is not 0 and cofactor (j, i) over it is 1/d_i on the diagonal and 0 off it |
| RealMatrix.DotSumDiag | util/GenMath.py:374-409 | the dot product of row i of one diagonal matrix with column j of another is d_i·e_i when i = j and 0 otherwise |
| RealMatrix.DetZeroRow | util/GenMath.py:259-299 | a matrix with a row of zeros has determinant 0 |
| RealMatrix.ExpansionZeroRow | util/GenMath.py:259-299 | every partial Laplace sum of a matrix with a zero row is 0 |
| RealMatrix.TermZeroRow | util/GenMath.py:259-299 | every expansion term of a matrix with a zero row is 0 |
| RealMatrix.MinorZeroRow | util/GenMath.py:359-372 | a zero row below the first stays a zero row, one place up, in a first-row minor |
| RealMatrix.DetMinorIdentity | util/GenMath.py:359-372 | minors of the identity have determinant 1 on the diagonal and 0 off it, a corollary of DetMinorDiag |
| RealMatrix.CofactorIdentity | util/GenMath.py:243-257 | every cofactor of the identity is the matching identity entry |
| MatrixLists.Rank | util/GenMath.py:411-420 | the rank is -1 exactly when some row's length differs from the number of rows, and otherwise the number of rows |
| MatrixLists.MatRank | util/GenMath.py:411-420 | the loop computes Rank |
| MatrixLists.DropAt | util/GenMath.py:359-372 | removing position k keeps every other element, in order, one shorter exactly when k is in range |
| MatrixLists.Minor | util/GenMath.py:359-372 | the minor drops row i and, from every kept row, column j |
| MatrixLists.MinorEntry | util/GenMath.py:359-372 | entry (r, c) of the minor is the entry of m at (r, c) shifted past row i and column j |
| MatrixLists.MinorSquare | util/GenMath.py:359-372 | the minor of an n-by-n matrix at a valid position is (n-1)-by-(n-1) |
| MatrixLists.MatMinor | util/GenMath.py:359-372 | the loop, with its skipped row and column, computes Minor |
| MatrixLists.MapMatrix | util/GenMath.py:463-472 | mapping keeps the shape and applies f at every position |
| MatrixLists.MinorMap | util/GenMath.py:359-372 | taking a minor commutes with mapping every entry |
| MatrixLists.VisitRow | util/GenMath.py:474-487 | a row visit succeeds exactly when f succeeds at every column, and then holds f's values |
| MatrixLists.VisitIndex | util/GenMath.py:474-487 | mat_visit_index succeeds exactly when f succeeds at every position, and then keeps the shape and holds f(m[i][j], i, j) |
| MatrixLists.Visit | util/GenMath.py:463-472 | mat_visit succeeds exactly when f succeeds on every entry, and then keeps the shape and holds f(m[i][j]) |
| MatrixLists.VisitFirstErr | util/GenMath.py:463-472 | an exception from the first entry is the exception of the whole visit |
| MatrixLists.VisitTotal | util/GenMath.py:463-472 | a visit with a function that never raises is the mapped matrix |
| MatrixLists.VisitIndexErrKind | util/GenMath.py:474-487 | a visitor that raises only one kind of exception makes the visit raise only that kind |
| MatrixLists.VisitRowErrKind | util/GenMath.py:474-487 | the same, for one row |
| MatrixLists.VisitRowErrSticky | util/GenMath.py:474-487 | once a prefix of a row raises, the whole row raises the same exception |
| MatrixLists.VisitIndexErrSticky | util/GenMath.py:474-487 | once a prefix of the rows raises, the whole visit raises the same exception |
| MatrixLists.MatVisitIndex | util/GenMath.py:474-487 | the nested loop, stopping at the first exception, computes VisitIndex |
| MatrixLists.MatVisit | util/GenMath.py:463-472 | the nested loop, stopping at the first exception, computes Visit |
| Determinant.Identity | util/GenMath.py:314-323 | the identity is square of the requested size |
| Determinant.MatIdentity | util/GenMath.py:314-323 | the loop builds the identity, empty for a negative size |
| Determinant.Symbolic | util/GenMath.py:439-448 | the symbolic matrix has the requested number of rows |
| Determinant.MatSymbolic | util/GenMath.py:439-448 | the loop builds the matrix of symbols name[i][j], empty for a negative size |
| Determinant.RankSymbolic | util/GenMath.py:439-448 | mat_rank of a symbolic matrix is its size |
| Determinant.Det | util/GenMath.py:259-299 | the determinant exists exactly for square matrices of size at least 1; otherwise ValueError (not square) or IndexError (no rows) |
| Determinant.Expansion | util/GenMath.py:282-299 | every partial expansion of a square matrix of size at least 3 exists |
| Determinant.Term | util/GenMath.py:282-299 | every expansion term of a square matrix of size at least 3 exists |
| Determinant.MatDeterminant | util/GenMath.py:259-299 | the recursive loop computes Det |
| Determinant.ValuesIdentity | util/GenMath.py:314-323 | the symbolic identity stands for the real identity |
| Determinant.DetEval | util/GenMath.py:259-299 | the determinant tree of a matrix of numbers and symbols is division free and evaluates to the real determinant of the matrix it stands for |
| Determinant.DetShape | util/GenMath.py:259-299 | the determinant tree of a matrix of numbers and symbols uses no division, and only numbers when every entry is a number |
| Determinant.ExpansionShape | util/GenMath.py:282-299 | the same for every partial expansion |
| Determinant.TermShape | util/GenMath.py:282-288 | the same for every expansion term |
| Determinant.ValuedMinor | util/GenMath.py:359-372 | the same minor of a tree matrix and of its values keeps the one the value of the other |
| Determinant.DetValue | util/GenMath.py:259-299 | the determinant tree evaluates to the Laplace determinant of whatever real matrix the entries evaluate to |
| Determinant.Det2Value | util/GenMath.py:276-279 | the 2-by-2 tree m[0][0]·m[1][1] - m[0][1]·m[1][0] evaluates to the real 2-by-2 determinant |
| Determinant.ExpansionValue | util/GenMath.py:282-299 | for three rows or more, the loop of terms accumulated with alternating Add and Subtract evaluates to the real Laplace sum |
| Determinant.ExpansionFirst | util/GenMath.py:288-291 | the first term alone evaluates to the first term of the Laplace sum |
| Determinant.ExpansionNext | util/GenMath.py:288-297 | one more term keeps the partial expansion equal in value to the partial Laplace sum |
| Determinant.ExpansionStep | util/GenMath.py:292-297 | adding term j for even j and subtracting it for odd j matches the sign of the Laplace sum |
| Determinant.TermEval | util/GenMath.py:284-288 | every expansion term tree evaluates to the entry times the determinant of its minor |
| Determinant.TermValue | util/GenMath.py:286-288 | an entry times a tree evaluating to its minor's determinant evaluates to the real term |
| Determinant.MinorTreeEval | util/GenMath.py:249-250 | the determinant tree of any minor exists, is arithmetic, and evaluates to the real determinant of the valued minor |
| Determinant.MinorLeaves | util/GenMath.py:359-372 | minors of a matrix of leaves are matrices of leaves |
| Determinant.MinorNumbers | util/GenMath.py:359-372 | minors of a matrix of numbers are matrices of numbers |
| Determinant.MinorValues | util/GenMath.py:359-372 | taking a minor commutes with valuation |
| Determinant.CofactorSignsEval | util/GenMath.py:238-242 | mat_cofactor_signs keeps the shape and negates the value of exactly the entries with odd i + j |
| Determinant.MatCofactorSigns | util/GenMath.py:238-242 | the visit computes CofactorSigns |
| GenMath.Arith | util/GenMath.py:83-149 | Python arithmetic on two operands gives a number, ZeroDivisionError on two numbers only for division by 0, TypeError otherwise |
| GenMath.NegateApply | util/GenMath.py:68-81 | Negate.apply succeeds exactly on numbers and raises TypeError otherwise |
| GenMath.Apply | util/GenMath.py:83-149 | apply of Add, Subtract, Multiply and Divide with their 0 and 1 short cuts: it raises ZeroDivisionError only on two numbers and TypeError otherwise, and keeps leaves as leaves; ApplySound and ApplyNumbers give its values |
| GenMath.Simplify | util/GenMath.py:171-196 | a successful simplify returns a number or a matrix element |
| GenMath.SimplifyBinary | util/GenMath.py:171-196 | one binary step returns a leaf value when it succeeds |
| GenMath.ApplySound | util/GenMath.py:83-149 | the 0 and 1 short cuts of apply never change the value under any valuation |
| GenMath.SimplifySound | util/GenMath.py:171-196 | whenever simplify succeeds, the tree evaluates, under every valuation, to the value of the leaf it returned |
| GenMath.ApplyNumbers | util/GenMath.py:83-149 | on two numbers apply agrees with exact arithmetic, exceptions included |
| GenMath.SimplifyGround | util/GenMath.py:171-196 | on a tree of numbers simplify succeeds exactly when evaluation does, with the same number or the same exception |
| GenMath.SimplifyGroundBinary | util/GenMath.py:171-196 | the binary case of SimplifyGround |
| GenMath.SimplifyLeaf | util/GenMath.py:171-196 | a number or a matrix element simplifies to itself |
| GenMath.Transpose | util/GenMath.py:450-461 | the transpose succeeds exactly when no row is shorter than the first, and otherwise raises IndexError; it has as many rows as the first row has entries, and entry (i, j) is m[j][i] |
| GenMath.MatTranspose | util/GenMath.py:450-461 | the loop computes Transpose |
| GenMath.TransposeTwice | util/GenMath.py:450-461 | a rectangular matrix with at least one column, transposed twice, is itself |
| GenMath.MatIsEqual | util/GenMath.py:301-312 | mat_is_equal is true exactly when the two matrices are equal |
| GenMath.Multiply | util/GenMath.py:374-409 | ValueError exactly for an empty operand or when the first row of m does not match the rows of n; otherwise IndexError exactly when some row of m is shorter than the rows of n, or some row of n is shorter than its first (with at least one column); a result has the rows of m, the columns of n, and the running dot product of row i of m and column j of n at (i, j) |
| GenMath.DotValue | util/GenMath.py:399-405 | under a valuation, the running dot product tree over the first k terms evaluates to the real sum of m[i][q]·n[q][j] for q < k |
| GenMath.MultiplyEval | util/GenMath.py:374-409 | every entry of mat_multiply of two matrices of leaves evaluates to the matching entry of the real matrix product; for matrices of numbers it is a tree of numbers |
| GenMath.MatMultiply | util/GenMath.py:374-409 | the triple loop computes Multiply |
| GenMath.MatSimplify | util/GenMath.py:434-437 | mat_simplify succeeds exactly when every entry simplifies, and then keeps the shape and holds the simplified entries |
| GenMath.MatSimplifyIdempotent | util/GenMath.py:434-437 | simplifying a simplified matrix changes nothing |
| GenMath.DotIdentity | util/GenMath.py:374-409 | the running dot product of an identity row with a column simplifies to that column's entry once the diagonal is passed, and to 0 before |
| GenMath.MultiplyIdentity | util/GenMath.py:374-409 | identity times x, simplified, is x |
| GenMath.CofactorMatrix | util/GenMath.py:243-257 | mat_cofactor_matrix succeeds exactly when every cofactor exists, and then keeps the shape and holds the signed minor determinants |
| GenMath.MatCofactorMatrix | util/GenMath.py:243-257 | the loop computes CofactorMatrix |
| GenMath.CofactorRow | util/GenMath.py:247-255 | the inner loop over one row, stopping at the first exception, computes the row visit of Cofactor |
| GenMath.CofactorOf | util/GenMath.py:249-254 | the minor, its determinant and the sign applied for odd i + j compute Cofactor, exceptions included |
| GenMath.CofactorMatrixSquare | util/GenMath.py:243-257 | a square matrix of size at least 2 has a square cofactor matrix of the same size |
| GenMath.ScalarDivide | util/GenMath.py:422-427 | ValueError exactly when the scalar equals 0; otherwise every entry is wrapped in a division by the scalar |
| GenMath.ScalarMultiply | util/GenMath.py:429-432 | every entry is wrapped in a multiplication by the scalar, keeping the shape |
| GenMath.ScaleRoundTrip | util/GenMath.py:422-432 | (x·c)/c simplifies to x for c not 0 |
| GenMath.ScalarRoundTrip | util/GenMath.py:422-437 | multiplying a matrix of numbers by c not 0, dividing by c and simplifying gives the matrix back |
| GenMath.Inverse | util/GenMath.py:325-357 | ValueError for a matrix that is not square, IndexError for no rows |
| GenMath.MatInverse | util/GenMath.py:325-357 | the sequence of steps computes Inverse |
| GenMath.DetIsNode | util/GenMath.py:259-299 | from size 2 on the determinant is an operator node, so the equality test of mat_inverse against 0 never fires |
| GenMath.InverseSteps | util/GenMath.py:325-357 | once its steps succeed, the inverse is the adjugate divided by the determinant |
| GenMath.InverseEntries | util/GenMath.py:325-357 | from size 2 on the inverse exists, is square, and entry (i, j) is cofactor (j, i) divided by the determinant |
| GenMath.DivideAdjugate | util/GenMath.py:352-356 | dividing the transposed cofactors places cofactor (j, i) over the determinant at (i, j) |
| GenMath.Adjugate | util/GenMath.py:349-353 | the transposed cofactor matrix exists, is square, and holds cofactor (j, i) at (i, j) |
| GenMath.CofactorEval | util/GenMath.py:243-257 | a cofactor tree evaluates to the real cofactor of the matrix it stands for |
| GenMath.InverseEval | util/GenMath.py:325-357 | under every valuation, inverse entry (i, j) evaluates exactly when the real determinant is not 0, to cofactor (j, i) / determinant, and raises ZeroDivisionError otherwise |
| GenMath.InverseIdentity | util/GenMath.py:616-619 | the inverse of the identity, simplified, is the identity, for every size from 2 |
| GenMath.InverseIdentityEntry | util/GenMath.py:616-619 | each entry of the inverse of the identity simplifies to the identity entry |
| GenMath.InverseOneByOne | util/GenMath.py:325-357 | a 1-by-1 matrix has no inverse: ValueError for a literal 0 entry, IndexError otherwise |
| GenMath.InverseNumbers | util/GenMath.py:325-357 | the inverse tree of a matrix of numbers simplifies exactly when its determinant is not 0 |
| GenMath.InverseSingular | util/GenMath.py:325-357 | a singular matrix of numbers passes mat_inverse and fails with ZeroDivisionError in mat_simplify |
| GenMath.SingularNotRefused | util/GenMath.py:325-357 | the singular [[1, 2], [2, 4]] is not refused with ValueError; its inverse only fails when simplified |
| GenMath.DetSimplify | util/GenMath.py:259-299 | the determinant of a matrix of numbers simplifies to the real determinant |
| GenMath.DetIdentityIsOne | util/GenMath.py:586-590 | the determinant tree of the identity simplifies to the number 1 for every size from 1, which covers the sizes 2 to 5 the test checks |
| GenMath.InverseSimplifies | util/GenMath.py:325-357 | the inverse of a square matrix of numbers of size at least 2 with a non-zero determinant simplifies, and entry (i, j) simplifies to the number cofactor (j, i) / determinant |
| GenMath.InverseSimplifiesEntry | util/GenMath.py:325-357 | one entry of InverseSimplifies |
| GenMath.Diagonal | util/GenMath.py:622-627 | the diagonal matrix of a list, of which the scaled identity of the test is one, is a square matrix of numbers of that size |
| GenMath.ValuesDiagonal | util/GenMath.py:622-627 | the diagonal matrix of numbers stands for the real diagonal matrix |
| GenMath.Reciprocals | util/GenMath.py:622-651 | each reciprocal is not 0 and times its entry gives 1 |
| GenMath.InverseDiagonal | util/GenMath.py:622-651 | for a diagonal with no 0, the simplified inverse is the diagonal of the reciprocals, and the matrix times that inverse simplifies to the identity |
| GenMath.InverseDiagonalSimplifies | util/GenMath.py:622-634 | the simplified inverse of a diagonal matrix with no 0 is the diagonal of the reciprocals |
| GenMath.InverseDiagonalEntry | util/GenMath.py:622-634 | one entry of InverseDiagonalSimplifies |
| GenMath.MultiplyDiagonal | util/GenMath.py:637-651 | two diagonal matrices whose diagonals multiply to 1, multiplied and simplified, give the identity |
| GenMath.MultiplyDiagonalEntry | util/GenMath.py:637-651 | one entry of MultiplyDiagonal |
| GenMath.InverseScaleExample | util/GenMath.py:622-651 | the 4-by-4 identity with 10 at (1, 1): its simplified inverse is the diagonal 1, 0.1, 1, 1 (so inv[1][1] is 0.1 and the other diagonal entries 1), and the matrix times that inverse simplifies to the identity |
| LegacyGenMath.NegateApply | GenMath.py:30-36 | Negate.apply succeeds exactly on numbers, negating them, and raises TypeError otherwise |
| LegacyGenMath.Simplify | GenMath.py:82-94 | a matrix element comes back unchanged; any other successful simplify is a number |
| LegacyGenMath.SimplifyBinary | GenMath.py:82-94 | a successful binary step is a number |
| LegacyGenMath.SimplifyExact | GenMath.py:82-94 | simplify succeeds exactly on a lone matrix element or on a tree of numbers that evaluates, and then gives its value or the same exception |
| LegacyGenMath.SimplifyExactBinary | GenMath.py:82-94 | the binary case of SimplifyExact |
| LegacyGenMath.SimplifyAgrees | GenMath.py:82-94 | wherever the older simplify succeeds, the newer one with short cuts gives the same result |
| LegacyGenMath.ShortCutsDiffer | GenMath.py:54-60 | the converse fails: a matrix element times 0 raises TypeError in the older copy and is 0 in the newer one |
| LegacyGenMath.MatSimplify | GenMath.py:200-202 | matSimplify succeeds exactly when every entry simplifies, and then keeps the shape and holds the simplified entries |
| LegacyGenMath.DetIdentityIsOne | GenMath.py:305-307 | the determinant of the identity simplifies to 1 from size 1 on |
| LegacyGenMath.Transpose | GenMath.py:212-219 | the transpose keeps the shape of m; it succeeds exactly when every mirrored position exists, and then entry (i, j) is m[j][i]; otherwise IndexError |
| LegacyGenMath.MatTranspose | GenMath.py:212-219 | the loop computes Transpose |
| LegacyGenMath.TransposeSquare | GenMath.py:212-219 | on a square matrix the older transpose is the true one, the same as the newer copy's |
| LegacyGenMath.TransposeNotSquare | GenMath.py:212-219 | on a rectangular matrix that is not square it raises IndexError |
| LegacyGenMath.MatIsEqual | GenMath.py:141-146 | the loop computes IsEqual |
| LegacyGenMath.IsEqualCovers | GenMath.py:141-146 | matIsEqual is true exactly when every position of lhs is a position of rhs with the same entry; it can only raise IndexError |
| LegacyGenMath.EqualFromCovers | GenMath.py:141-146 | the same, from row i on |
| LegacyGenMath.RowEqualCovers | GenMath.py:141-146 | the same, for row i from column j on |
| LegacyGenMath.IsEqualSameShape | GenMath.py:141-146 | on matrices of the same shape matIsEqual is equality |
| LegacyGenMath.IsEqualNoLengthCheck | GenMath.py:141-146 | without a shape check it accepts an empty lhs, and a 1-by-1 lhs against a larger rhs |
| LegacyGenMath.ScalarDivide | GenMath.py:194-196 | every entry is wrapped in a division by the scalar, with no check for 0 |
| LegacyGenMath.ScalarMultiply | GenMath.py:197-199 | every entry is wrapped in a multiplication by the scalar |
| LegacyGenMath.ScalarRoundTrip | GenMath.py:194-202 | multiplying a matrix of numbers by c not 0, dividing and simplifying gives it back; for c = 0 it raises ZeroDivisionError |
| LegacyGenMath.ScaleRoundTrip | GenMath.py:194-202 | (x·c)/c simplifies to x for c not 0 |
| LegacyGenMath.Products | GenMath.py:160-168 | the first step succeeds exactly when every entry's product exists, and then holds m[i][j] times the determinant of its minor |
| LegacyGenMath.MatProducts | GenMath.py:160-168 | the nested loop, stopping at the first exception, computes Products |
| LegacyGenMath.ProductRow | GenMath.py:162-168 | the inner loop over one row, stopping at the first exception, computes the row visit of Product |
| LegacyGenMath.ProductOf | GenMath.py:164-167 | the entry times the determinant of its minor computes Product, exceptions included |
| LegacyGenMath.MatInverse | GenMath.py:157-172 | the sequence of steps computes Inverse |
| LegacyGenMath.InverseOk | GenMath.py:157-172 | matInverse succeeds exactly on square matrices of size at least 2; otherwise ValueError (not square) or IndexError |
| LegacyGenMath.ProductsErr | GenMath.py:160-168 | on a square matrix the first step can only raise IndexError |
| LegacyGenMath.InverseEntries | GenMath.py:157-172 | from size 2 on, inverse entry (i, j) is the signed m[j][i]·det(minor(j, i)) over the determinant |
| LegacyGenMath.InverseSteps | GenMath.py:157-172 | once its steps succeed, the inverse is the signed transposed products divided by the determinant |
| LegacyGenMath.DivideSigned | GenMath.py:169-171 | the division places the signed product (j, i) over the determinant at (i, j) |
| LegacyGenMath.ProductsSquare | GenMath.py:160-168 | the first step on a square matrix of size at least 2 succeeds |
| LegacyGenMath.SignedTranspose | GenMath.py:169-170 | the signs and the transpose place the signed product (j, i) at (i, j) |
| LegacyGenMath.DetIsNode | GenMath.py:118-139 | from size 2 on the determinant exists |
| LegacyGenMath.InverseEval | GenMath.py:157-172 | under every valuation, entry (i, j) evaluates exactly when the determinant is not 0, to m[j][i]·(signed minor determinant) / determinant |
| LegacyGenMath.InverseIdentity | GenMath.py:325-328 | the simplified inverse of the identity is the identity and matIsEqual says so, from size 2 on |
| LegacyGenMath.SimplifiedInverseIdentity | GenMath.py:325-328 | the simplified inverse of the identity is the identity |
| LegacyGenMath.InverseShape | GenMath.py:157-172 | from size 2 on the inverse is square of the same size |
| LegacyGenMath.InverseIdentityEntry | GenMath.py:325-328 | each entry of the inverse of the identity simplifies to the identity entry |
| LegacyGenMath.IdentityEntryEval | GenMath.py:325-328 | each entry of the inverse of the identity evaluates to 1 on the diagonal and 0 off it |
| LegacyGenMath.EntryValue | GenMath.py:157-172 | an inverse entry evaluates to its signed numerator over the determinant |
| LegacyGenMath.SignedProductIdentity | GenMath.py:160-168 | on the identity the signed numerator is 1 on the diagonal and 0 off it |
| LegacyGenMath.DiagonalInverse | GenMath.py:157-172 | for [[x, 0], [0, y]], x and y not 0, the older inverse simplifies to the identity, while the newer one simplifies to [[1/x, 0], [0, 1/y]] |
| LegacyGenMath.LegacyDiagonalInverse | GenMath.py:157-172 | the older inverse of [[x, 0], [0, y]] simplifies to the identity |
| LegacyGenMath.UtilDiagonalInverse | util/GenMath.py:325-357 | the newer inverse of [[x, 0], [0, y]] simplifies to [[1/x, 0], [0, 1/y]] |
| LegacyGenMath.DiagonalLegacyEntry | GenMath.py:157-172 | each entry of the older inverse of [[x, 0], [0, y]] simplifies to the identity entry |
| LegacyGenMath.DiagonalUtilEntry | util/GenMath.py:325-357 | each entry of the newer inverse of [[x, 0], [0, y]] simplifies to the true inverse entry |
| LegacyGenMath.UtilEntryValue | util/GenMath.py:325-357 | an entry of the newer inverse evaluates to its cofactor over the determinant |
| LegacyGenMath.DiagonalReal | GenMath.py:157-172 | for [[x, 0], [0, y]] the determinant is x·y, the older numerator is x·y or 0, and the true cofactor is y, x or 0 |
| LegacyGenMath.NumeratorEval | GenMath.py:160-169 | the signed numerator tree evaluates to the signed product of the entry and its minor's determinant |
| LegacyGenMath.ProductEval | GenMath.py:164-167 | m[i][j]·det(minor) evaluates to the entry times the real determinant of its minor |
| ParametricGl.CreateParametricVecN | util/module_gl_parametric.py:11-18 | the generator loop yields exactly ParametricVecN, exceptions included |
| ParametricGl.EmitComponents | util/module_gl_parametric.py:17-18 | yielding the first n components of a sample appends exactly them, and raises IndexError when the sample is shorter than n |
| ParametricGl.StreamOk | util/module_gl_parametric.py:11-18 | the stream of k vertices succeeds exactly when every sample has n components, has k·n values, and otherwise raises IndexError |
| ParametricGl.StreamAt | util/module_gl_parametric.py:14-18 | component i of vertex c is value c·n + i of the stream |
| ParametricGl.VecNOutcome | util/module_gl_parametric.py:11-18 | the generator raises ZeroDivisionError exactly when neither step count is negative and one is 0, and IndexError exactly when both are positive and some sample is too short; otherwise it yields (usteps+1)(vsteps+1)·n values, or none when a step count is negative (so usteps = 0 with vsteps < 0 raises nothing) |
| ParametricGl.VecNAt | util/module_gl_parametric.py:11-18 | component i of the shape at (u/usteps, v/vsteps) is value (u + v(usteps+1))·n + i |
| ParametricGl.Indices | util/module_gl_parametric.py:22-32 | k quads give 6k indices |
| ParametricGl.ParametricIndices | util/module_gl_parametric.py:22-32 | six indices per quad, none when a step count is not positive |
| ParametricGl.CreateParametricIndices | util/module_gl_parametric.py:22-32 | the generator loop yields exactly ParametricIndices |
| ParametricGl.IndicesAt | util/module_gl_parametric.py:25-32 | index 6(v·usteps + u) + t is corner t of the quad at column u, row v |
| ParametricGl.IndicesPrefix | util/module_gl_parametric.py:25-32 | the indices of fewer quads are a prefix of those of more |
| ParametricGl.IndicesInRange | util/module_gl_parametric.py:22-32 | every index names a vertex of the grid: 0 <= index < (usteps+1)(vsteps+1) |
| ParametricGl.IndicesBound | util/module_gl_parametric.py:22-32 | the same for the indices of the first k quads |
| ParametricGl.QuadInRange | util/module_gl_parametric.py:27-32 | the six corners of a quad inside the grid are vertices of the grid |
| ParametricGl.QuadDiagonal | util/module_gl_parametric.py:27-32 | the two triangles of a quad are closed and share exactly the diagonal from (u, v) to (u+1, v+1) |
| ParametricGl.GlCreateParametric | util/module_gl_parametric.py:40-57 | succeeds exactly when the position, normal and texture streams do, raises the first of their exceptions in that order, and on success stores the three streams, the indices and their count |
| ParametricGl.MeshStreams | util/module_gl_parametric.py:42-45 | a successful mesh has 3, 3 and 2 values per vertex of the grid |
| Parametric.PlanePos | util/module_parametric.py:9-10 | the plane point has three coordinates and lies at height 0 |
| Parametric.PlaneRoundTrip | util/module_parametric.py:9-10 | the parameters can be read back from the point: the map is one to one |
| Parametric.PlaneOnto | util/module_parametric.py:9-10 | every point of height 0 is the image of some parameters |
| Parametric.PlaneNor | util/module_parametric.py:12-13 | the plane normal is the unit y axis everywhere |
| Parametric.UnitUV | util/module_parametric.py:30-31 | the texture coordinates are the parameters |
| Parametric.ParametricPlane | util/module_parametric.py:35-36 | the plane record pairs planePos, planeNor and unitUV |
| Parametric.ParametricSphere | util/module_parametric.py:38-39 | the sphere record uses spherePos for both position and normal, with unitUV |
| Parametric.ParametricTorus | util/module_parametric.py:41-42 | the torus record uses torusPos(major, minor), the unit-circle torusPos(0, 1) as normal, and unitUV |
| Parametric.SphereNormalIsPosition | util/module_parametric.py:38-39 | the sphere's normal equals its position everywhere |
| Parametric.TextureCoordinates | util/module_parametric.py:30-42 | every record's texture coordinates are (u, v) |
| RenderWindow.UvPlane | util/renderwindow.py:12-13 | uvPlane is the same plane as planePos |
| RenderWindow.UvPlaneCorners | util/renderwindow.py:12-13 | the parameter square's corners land on opposite corners of the plane, at height 0 |
| RenderWindow.UvVertex | util/renderwindow.py:24-32 | the three-yield generator produces exactly the vertex stream of createParametricVecN with n = 3 |
| RenderWindow.UvIndex | util/renderwindow.py:36-46 | the generator produces exactly the indices of createParametricIndices |
| RenderWindow.TenByTenGrid | util/renderwindow.py:63-64 | the 10-by-10 sphere has 121 vertices and 363 floats, and 600 indices between 0 and 120, which fit a uint16 without wrapping |
| Transforms.SameMatrix | util/module_matrix.py:26-38 | two 4-by-4 matrices with the same entries are equal |
| Transforms.Identity4 | util/module_matrix.py:26-38 | the identity is 4-by-4 |
| Transforms.Mul | util/module_matrix.py:26-38 | the product is 4-by-4 with entry (i, j) the dot product of row i and column j |
| Transforms.Apply | util/module_matrix.py:26-38 | a row vector times a matrix has four components |
| Transforms.MatScale | util/module_matrix.py:26-31 | the scale is 4-by-4 |
| Transforms.MatTranslate | util/module_matrix.py:33-38 | the translation is 4-by-4 |
| Transforms.ScaleAndTranslatePoints | util/module_matrix.py:26-38 | a scale multiplies a point's coordinates, a translation adds to a point and leaves a direction unchanged |
| Transforms.NeutralTransforms | util/module_matrix.py:26-38 | the unit scale and the zero translation are the identity |
| Transforms.IdentityNeutral | util/module_matrix.py:26-38 | the identity is neutral on both sides of the product |
| Transforms.TranslateCompose | util/module_matrix.py:33-38 | translations compose by adding offsets |
| Transforms.ScaleCompose | util/module_matrix.py:26-31 | scales compose by multiplying factors |
| Transforms.ScaleThenTranslate | util/module_matrix.py:26-38 | scale @ translate scales a point, then moves it |
| Transforms.MatProjection | util/module_matrix.py:16-24 | ZeroDivisionError exactly when tan(fov/2) is 0 or near = far; otherwise f = 1/tan on the diagonal, N·(near-far) = far+near, F·(near-far) = 2·far·near, -1 and 0 in the last column, zeros elsewhere |
| Transforms.ProjectionDepth | util/module_matrix.py:16-24 | a point at z = -near has w = near and z = -near (depth -1 after division); one at z = -far has w = far and z = far (depth 1) |
| Transforms.CrossPerpendicular | util/module_matrix.py:4-14 | the cross product is perpendicular to both factors |
| Transforms.LookAtFrame | util/module_matrix.py:4-14 | the up axis is s × f and perpendicular to both s and f |
| Transforms.ViewMatrix | util/module_matrix.py:9-14 | the view matrix is 4-by-4 with last column (0, 0, 0, 1) |
| Transforms.MatLookAt | util/module_matrix.py:4-14 | matLookAt is 4-by-4; its third column is minus the normalized view direction, its first column the normalized cross product of that direction with up, its second column the cross product of the first two directions and orthogonal to both; its last column is (0, 0, 0, 1), and it maps the eye to the origin |
| Transforms.ViewColumns | util/module_matrix.py:4-14 | the columns of the view matrix are the frame's side, up and minus forward vectors |
| Transforms.ViewEye | util/module_matrix.py:9-14 | the view matrix moves the eye to the origin |
| Transforms.ViewDirection | util/module_matrix.py:9-14 | a direction maps to its coordinates along s, u and -f |
| Geometric.Le32 | cpp/geometric.cpp:115-117 | a 32-bit field is written as four bytes |
| Geometric.Le32RoundTrip | cpp/geometric.cpp:115-117 | the four little-endian bytes read back as the same bit pattern |
| Geometric.IntBits | cpp/geometric.cpp:146-147 | an int is stored as its two's complement bit pattern |
| Geometric.IntBitsRoundTrip | cpp/geometric.cpp:146-147 | the bit pattern reads back as the same int |
| Geometric.Ascii | cpp/geometric.cpp:114 | a tag is written as its ASCII bytes, one per character |
| Geometric.Serialized | cpp/geometric.cpp:113-148 | Box writes 15 bytes, Sphere 10, Mesh 12, and a non-serializable object nothing |
| Geometric.Serializable | cpp/geometric.cpp:278-283 | an object is kept exactly when it is in the list and serializable; the result is no longer than the list, and is the whole list when every object is serializable |
| Geometric.ParseOne | cpp/geometric.cpp:113-148 | the bytes of a serializable object, followed by anything, parse back to the object followed by the parse of the rest |
| Geometric.ParseBox | cpp/geometric.cpp:113-118 | a saved box parses back to the same box |
| Geometric.ParseSphere | cpp/geometric.cpp:129-132 | a saved sphere parses back to the same sphere |
| Geometric.ParseMesh | cpp/geometric.cpp:144-148 | a saved mesh parses back to the same mesh |
| Geometric.SaveParseRoundTrip | cpp/geometric.cpp:273-284 | the bytes of a whole world parse back to its serializable objects, in order |
| Geometric.WorldRoundTrip | cpp/geometric.cpp:256-284 | the bytes saved from the world that CreateWorld builds parse back to exactly its three objects |
| Geometric.MemoryStream.constructor | cpp/geometric.cpp:71-73 | a new stream is empty |
| Geometric.MemoryStream.WriteBytes | cpp/geometric.cpp:75-79 | appends the first count bytes of the buffer, none for a negative count |
| Geometric.MemoryStream.Size | cpp/geometric.cpp:80-82 | the size is the byte count modulo 2^32: the count itself below 2^32 |
| Geometric.SaveBox | cpp/geometric.cpp:113-118 | appends the serialized box |
| Geometric.SaveSphere | cpp/geometric.cpp:129-132 | appends the serialized sphere |
| Geometric.SaveMesh | cpp/geometric.cpp:144-148 | appends the serialized mesh |
| Geometric.Save | cpp/geometric.cpp:279-282 | appends the object's bytes, nothing for a non-serializable object |
| Geometric.Factory.CreateBox | cpp/geometric.cpp:167-187 | the geometric factory makes the box, the mesh factory an 8-vertex, 12-triangle mesh |
| Geometric.Factory.CreateSphere | cpp/geometric.cpp:167-187 | the geometric factory makes the sphere, the mesh factory a 1296-vertex, 2592-triangle mesh |
| Geometric.World.constructor | cpp/geometric.cpp:258 | a new world is empty |
| Geometric.WorldObjects | cpp/geometric.cpp:256-263 | a world has three objects, all serializable |
| Geometric.CreateWorld | cpp/geometric.cpp:256-263 | a fresh world holding a box and two spheres from the factory |
| Geometric.SaveEverything | cpp/geometric.cpp:267-284 | appends the bytes of every object in world order |
| Geometric.SaveToMemory | cpp/geometric.cpp:296-300 | a memory stream reports the world's byte count modulo 2^32 |
| Geometric.WorldSizes | cpp/geometric.cpp:296-300 | the geometric world saves 35 bytes, the mesh world 36 |
| Geometric.CreateBoxCommand.constructor | cpp/geometric.cpp:232 | the command records its world, box and factory |
| Geometric.CreateBoxCommand.CommandDo | cpp/geometric.cpp:233-235 | appends the factory's box to the world |
| Geometric.CreateBoxCommand.CommandUndo | cpp/geometric.cpp:236-238 | removes the world's last object |
| Geometric.CreateSphereCommand.constructor | cpp/geometric.cpp:247 | the command records its world, radius and factory |
| Geometric.CreateSphereCommand.CommandDo | cpp/geometric.cpp:248-250 | appends the factory's sphere to the world |
| Geometric.CreateSphereCommand.CommandUndo | cpp/geometric.cpp:251-253 | removes the world's last object |
| Geometric.DoThenUndo | cpp/geometric.cpp:226-254 | doing a command and undoing it leaves the world as it was |

## Left out

- Window creation, OpenGL buffer, shader and draw calls (`glCreateParametric`'s buffer plumbing, `glRenderMesh`, the GLUT set-up of `util/renderwindow.py`): they are I/O into a driver.
- Printing and the test harnesses (`mat_print`, `mat_python`, the `ANSI` colours, the `decorate_test` wrappers, `Log`, `LogTime`, `main`): I/O. The properties the tests assert are stated as lemmas instead.
- Floating point: numbers are exact reals. Python's int/float distinction, numpy's float32 storage and C++ `float` rounding are not modelled. The C++ floats are kept as their 32-bit patterns, since they are only copied.
- `math.sin`, `math.cos`, `math.tan`, `math.sqrt` and the degree-to-radian conversion are not modelled. `spherePos`, `torusPos` and `uvSphere` are parameters of the records that use them. `matProjection` takes tan(fov/2). `matLookAt` takes the normalization.
- Transforms.LookAtFrame: states only what holds for any normalization. Unit length of the axes depends on `math.sqrt`, which is not modelled.
- Python object identity: trees are compared structurally, as the `==` of numbers and of the same node objects behaves in the listed code.
- The numpy conversion to `uint16` and `float32`: wrap-around is not modelled. RenderWindow.TenByTenGrid proves that the 10-by-10 grid never needs it.
- `Load` of the C++ objects: it only throws `NotImplementedException`.
- The C++ commands' `_factory` member, which is never initialised in the source: the factory is passed to the command's constructor instead.
- Geometric.CreateBoxCommand.CommandUndo: requires a non-empty world, since `pop_back` on an empty vector is undefined behaviour.
- Geometric.CreateSphereCommand.CommandUndo: the same requirement, for the same reason.
- Platform layout: 4-byte `float` and `int`, little-endian, and `uint32_t` for the size are assumed. Shared ownership through `shared_ptr` is modelled as a reference to one `World` object.
- Any `IObject` that is not `ISerializable` is modelled by a single `Plain` object: no such class exists in the source.
- The newer `mat_inverse` tests the determinant tree against 0, which only a literal 0 can equal. This is modelled as written: GenMath.InverseOneByOne and GenMath.SingularNotRefused show the effect.

## Findings

| source | as written | input that shows it | evidently intended | confidence | as-written member | corrected member |
|---|---|---|---|---|---|---|
| GenMath.py:160-168 | each entry of the first step is `m[i][j] * det(minor(m, i, j))`, the entry times its minor | [[2, 0], [0, 1]]: the older matInverse simplifies to [[1, 0], [0, 1]] instead of [[0.5, 0], [0, 1]] | the cofactor alone, `det(minor(m, i, j))` signed, as util/GenMath.py:325-357 computes it | high, not executed | LegacyGenMath.DiagonalInverse | GenMath.InverseEval |
