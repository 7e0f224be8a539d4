/** Plain real-valued matrices: the determinant by Laplace expansion along
    the first row, which the symbolic determinant trees evaluate to, and the
    facts about it that the library's identity-matrix tests rely on. */
module RealMatrix {
  import opened MatrixLists

  /** The n-by-n identity matrix over the reals. */
  function Identity(n: nat): (r: seq<seq<real>>)
    ensures |r| == n && IsSquare(r)
  {
    seq(n, i requires 0 <= i < n => seq(n, j requires 0 <= j < n => if i == j then 1.0 else 0.0))
  }

  /** The determinant of a non-empty square matrix: the entry itself for
      1-by-1, ad - bc for 2-by-2, and otherwise the alternating sum over the
      first row of each entry times the determinant of its minor. */
  function Det(a: seq<seq<real>>): real
    requires IsSquare(a) && |a| >= 1
    decreases |a|, 1
  {
    if |a| == 1 then a[0][0]
    else if |a| == 2 then a[0][0] * a[1][1] - a[0][1] * a[1][0]
    else Expansion(a, |a|)
  }

  /** The first `k` terms of the expansion along the first row. */
  function Expansion(a: seq<seq<real>>, k: int): real
    requires IsSquare(a) && |a| >= 3 && 1 <= k <= |a|
    decreases |a|, 0, k + 1
  {
    var t := Term(a, k - 1);
    if k == 1 then t
    else if (k - 1) % 2 == 0 then Expansion(a, k - 1) + t
    else Expansion(a, k - 1) - t
  }

  /** One term of the expansion: the entry of the first row in column j
      times the determinant of its minor. */
  function Term(a: seq<seq<real>>, j: int): real
    requires IsSquare(a) && |a| >= 3 && 0 <= j < |a|
    decreases |a|, 0, 0
  {
    MinorSquare(a, 0, j);
    a[0][j] * Det(Minor(a, 0, j))
  }

  /** The cofactor of entry (i, j): the determinant of its minor, negated
      when i + j is odd. */
  function Cofactor(a: seq<seq<real>>, i: int, j: int): real
    requires IsSquare(a) && |a| >= 2 && 0 <= i < |a| && 0 <= j < |a|
  {
    MinorSquare(a, i, j);
    var d := Det(Minor(a, i, j));
    if (i + j) % 2 == 1 then -d else d
  }

  /** Every entry of the row is 0. */
  predicate RowIsZero(row: seq<real>) {
    forall c :: 0 <= c < |row| ==> row[c] == 0.0
  }

  lemma ProductWithZero(x: real, y: real)
    requires x == 0.0 || y == 0.0
    ensures x * y == 0.0
  {
  }

  /** A matrix with a row of zeros has determinant 0. */
  lemma {:induction false} DetZeroRow(a: seq<seq<real>>, r: int)
    requires IsSquare(a) && |a| >= 1 && 0 <= r < |a|
    requires RowIsZero(a[r])
    ensures Det(a) == 0.0
    decreases |a|, 1
  {
    if |a| >= 3 {
      ExpansionZeroRow(a, r, |a|);
    }
  }

  lemma {:induction false} ExpansionZeroRow(a: seq<seq<real>>, r: int, k: int)
    requires IsSquare(a) && |a| >= 3 && 1 <= k <= |a| && 0 <= r < |a|
    requires RowIsZero(a[r])
    ensures Expansion(a, k) == 0.0
    decreases |a|, 0, k + 1
  {
    TermZeroRow(a, r, k - 1);
    if k > 1 {
      ExpansionZeroRow(a, r, k - 1);
    }
  }

  lemma {:induction false} TermZeroRow(a: seq<seq<real>>, r: int, j: int)
    requires IsSquare(a) && |a| >= 3 && 0 <= j < |a| && 0 <= r < |a|
    requires RowIsZero(a[r])
    ensures Term(a, j) == 0.0
    decreases |a|, 0, 0
  {
    MinorSquare(a, 0, j);
    var mi := Minor(a, 0, j);
    if r == 0 {
      assert a[0][j] == 0.0;
    } else {
      MinorZeroRow(a, r, j);
      DetZeroRow(mi, r - 1);
    }
    ProductWithZero(a[0][j], Det(mi));
  }

  /** A zero row below the first survives, one place up, in every minor
      taken along the first row. */
  lemma MinorZeroRow(a: seq<seq<real>>, r: int, j: int)
    requires IsSquare(a) && 1 <= r < |a| && 0 <= j < |a|
    requires RowIsZero(a[r])
    ensures |Minor(a, 0, j)| == |a| - 1 && RowIsZero(Minor(a, 0, j)[r - 1])
  {
    var row := Minor(a, 0, j)[r - 1];
    assert row == DropAt(a[r], j);
    forall c | 0 <= c < |row|
      ensures row[c] == 0.0
    {
      assert row[c] == a[r][Skip(c, j)];
    }
  }

  /** The square matrix with `ds` down its diagonal and 0 everywhere else. */
  function Diag(ds: seq<real>): (r: seq<seq<real>>)
    ensures |r| == |ds| && IsSquare(r)
  {
    seq(|ds|, i requires 0 <= i < |ds| => seq(|ds|, j requires 0 <= j < |ds| => if i == j then ds[i] else 0.0))
  }

  /** The product of the first k entries of a list of reals. */
  function ProductTo(ds: seq<real>, k: int): real
    requires 0 <= k <= |ds|
    decreases k
  {
    if k == 0 then 1.0 else ProductTo(ds, k - 1) * ds[k - 1]
  }

  /** The product of all the entries of a list of reals. */
  function Product(ds: seq<real>): real {
    ProductTo(ds, |ds|)
  }

  /** Any one factor can be taken out of the product first. */
  lemma {:induction false} ProductDropAt(ds: seq<real>, k: int)
    requires 0 <= k < |ds|
    ensures Product(ds) == ds[k] * Product(DropAt(ds, k))
  {
    ProductToDropAt(ds, DropAt(ds, k), k, |ds|);
  }

  /** `d` is `ds` without its entry at k. */
  predicate Dropped(ds: seq<real>, d: seq<real>, k: int) {
    0 <= k < |ds| && |d| == |ds| - 1 && forall c :: 0 <= c < |d| ==> d[c] == ds[Skip(c, k)]
  }

  /** Past the dropped index, the product of the first m entries of `ds`
      is `ds[k]` times the product of the first m - 1 entries of `d`. */
  lemma {:induction false} ProductToDropAt(ds: seq<real>, d: seq<real>, k: int, m: int)
    requires Dropped(ds, d, k) && k < m <= |ds|
    ensures ProductTo(ds, m) == ds[k] * ProductTo(d, m - 1)
    decreases m
  {
    if m == k + 1 {
      ProductToBefore(ds, d, k, k);
      MulCommutes(ProductTo(d, k), ds[k]);
    } else {
      ProductToDropAt(ds, d, k, m - 1);
      ProductToDropAtStep(ds, d, k, m);
    }
  }

  lemma ProductToDropAtStep(ds: seq<real>, d: seq<real>, k: int, m: int)
    requires Dropped(ds, d, k) && k < m - 1 && m <= |ds|
    requires ProductTo(ds, m - 1) == ds[k] * ProductTo(d, m - 2)
    ensures ProductTo(ds, m) == ds[k] * ProductTo(d, m - 1)
  {
    assert d[m - 2] == ds[m - 1];
    ProductRegroup(ProductTo(ds, m), ProductTo(ds, m - 1), ds[k], ProductTo(d, m - 2), ds[m - 1], ProductTo(d, m - 1));
  }

  /** Before the dropped index, `ds` and `d` agree. */
  lemma {:induction false} ProductToBefore(ds: seq<real>, d: seq<real>, k: int, m: int)
    requires Dropped(ds, d, k) && 0 <= m <= k
    ensures ProductTo(ds, m) == ProductTo(d, m)
    decreases m
  {
    if m > 0 {
      ProductToBefore(ds, d, k, m - 1);
      assert d[m - 1] == ds[m - 1];
    }
  }

  /** The arithmetic step of `ProductToDropAt`. */
  lemma ProductRegroup(p: real, pInit: real, x: real, q: real, last: real, pDrop: real)
    requires p == pInit * last && pInit == x * q && pDrop == q * last
    ensures p == x * pDrop
  {
  }

  lemma MulCommutes(x: real, y: real)
    ensures x * y == y * x
  {
  }

  /** A product of non-zero factors is not 0. */
  lemma {:induction false} ProductNonZero(ds: seq<real>, k: int)
    requires 0 <= k <= |ds| && forall i :: 0 <= i < |ds| ==> ds[i] != 0.0
    ensures ProductTo(ds, k) != 0.0
    decreases k
  {
    if k > 0 {
      ProductNonZero(ds, k - 1);
    }
  }

  /** A product of ones is 1. */
  lemma {:induction false} ProductOnes(ds: seq<real>, k: int)
    requires 0 <= k <= |ds| && forall i :: 0 <= i < |ds| ==> ds[i] == 1.0
    ensures ProductTo(ds, k) == 1.0
    decreases k
  {
    if k > 0 {
      ProductOnes(ds, k - 1);
    }
  }

  /** Removing row i and column i of a diagonal matrix leaves the diagonal
      matrix of the other entries. */
  lemma {:induction false} MinorDiagDiagonal(ds: seq<real>, i: int)
    requires 0 <= i < |ds|
    ensures Minor(Diag(ds), i, i) == Diag(DropAt(ds, i))
  {
    var m := Minor(Diag(ds), i, i);
    var d := Diag(DropAt(ds, i));
    MinorSquare(Diag(ds), i, i);
    forall r | 0 <= r < |ds| - 1
      ensures m[r] == d[r]
    {
      forall c | 0 <= c < |ds| - 1
        ensures m[r][c] == d[r][c]
      {
        MinorEntry(Diag(ds), i, i, r, c);
      }
    }
  }

  /** The determinant of a diagonal matrix is the product of its diagonal. */
  lemma {:induction false} DetDiag(ds: seq<real>)
    requires |ds| >= 1
    ensures Det(Diag(ds)) == Product(ds)
    decreases |ds|, 1
  {
    var a := Diag(ds);
    if |ds| == 1 {
      assert Product(ds) == 1.0 * ds[0];
    } else if |ds| == 2 {
      assert Product(ds) == (1.0 * ds[0]) * ds[1];
      assert a[0][1] == 0.0 && a[1][0] == 0.0;
      ProductWithZero(a[0][1], a[1][0]);
    } else {
      ExpansionDiag(ds, |ds|);
      ProductDropAt(ds, 0);
    }
  }

  lemma {:induction false} ExpansionDiag(ds: seq<real>, k: int)
    requires 3 <= |ds| && 1 <= k <= |ds|
    ensures Expansion(Diag(ds), k) == ds[0] * Product(DropAt(ds, 0))
    decreases |ds|, 0, k
  {
    var a := Diag(ds);
    MinorSquare(a, 0, k - 1);
    var t := Term(a, k - 1);
    assert t == a[0][k - 1] * Det(Minor(a, 0, k - 1));
    if k == 1 {
      MinorDiagDiagonal(ds, 0);
      DetDiag(DropAt(ds, 0));
      assert Expansion(a, k) == t;
    } else {
      ExpansionDiag(ds, k - 1);
      assert a[0][k - 1] == 0.0;
      ProductWithZero(a[0][k - 1], Det(Minor(a, 0, k - 1)));
      assert Expansion(a, k) == if (k - 1) % 2 == 0 then Expansion(a, k - 1) + t else Expansion(a, k - 1) - t;
    }
  }

  /** The minors of a diagonal matrix: on the diagonal, the product of the
      other entries; off it 0, since dropping row i and column j != i leaves
      row j all zeros. */
  lemma {:induction false} DetMinorDiag(ds: seq<real>, i: int, j: int)
    requires |ds| >= 2 && 0 <= i < |ds| && 0 <= j < |ds|
    ensures IsSquare(Minor(Diag(ds), i, j)) && |Minor(Diag(ds), i, j)| == |ds| - 1
    ensures Det(Minor(Diag(ds), i, j)) == if i == j then Product(DropAt(ds, i)) else 0.0
  {
    MinorSquare(Diag(ds), i, j);
    var mi := Minor(Diag(ds), i, j);
    if i == j {
      MinorDiagDiagonal(ds, i);
      DetDiag(DropAt(ds, i));
    } else {
      var z := if j < i then j else j - 1;
      MinorDiagZeroRow(ds, i, j, z);
      DetZeroRow(mi, z);
    }
  }

  lemma {:induction false} MinorDiagZeroRow(ds: seq<real>, i: int, j: int, z: int)
    requires |ds| >= 2 && 0 <= i < |ds| && 0 <= j < |ds| && i != j
    requires z == if j < i then j else j - 1
    ensures |Minor(Diag(ds), i, j)| == |ds| - 1 && RowIsZero(Minor(Diag(ds), i, j)[z])
  {
    var row := Minor(Diag(ds), i, j)[z];
    assert Skip(z, i) == j;
    assert row == DropAt(Diag(ds)[j], j);
    forall c | 0 <= c < |row|
      ensures row[c] == 0.0
    {
      assert row[c] == Diag(ds)[j][Skip(c, j)];
    }
  }

  /** Every cofactor of a diagonal matrix: the product of the other diagonal
      entries on the diagonal, 0 off it. */
  lemma {:induction false} CofactorDiag(ds: seq<real>, i: int, j: int)
    requires |ds| >= 2 && 0 <= i < |ds| && 0 <= j < |ds|
    ensures Cofactor(Diag(ds), i, j) == if i == j then Product(DropAt(ds, i)) else 0.0
  {
    DetMinorDiag(ds, i, j);
    var d := Det(Minor(Diag(ds), i, j));
    assert Cofactor(Diag(ds), i, j) == if (i + j) % 2 == 1 then -d else d;
    if i == j {
      assert (i + j) % 2 == 0;
    }
  }

  /** The adjugate formula on a diagonal matrix with no zero on its
      diagonal: entry (i, j) of the inverse is 1 / ds[i] on the diagonal
      and 0 off it. */
  lemma {:induction false} InverseDiagEntry(ds: seq<real>, i: int, j: int)
    requires |ds| >= 2 && 0 <= i < |ds| && 0 <= j < |ds|
    requires forall q :: 0 <= q < |ds| ==> ds[q] != 0.0
    ensures Det(Diag(ds)) != 0.0
    ensures Cofactor(Diag(ds), j, i) / Det(Diag(ds)) == if i == j then 1.0 / ds[i] else 0.0
  {
    DetDiag(ds);
    ProductNonZero(ds, |ds|);
    if i == j {
      InverseDiagDiagonal(ds, i);
    } else {
      CofactorDiag(ds, j, i);
    }
  }

  lemma {:induction false} InverseDiagDiagonal(ds: seq<real>, i: int)
    requires |ds| >= 2 && 0 <= i < |ds| && ds[i] != 0.0 && Det(Diag(ds)) == Product(ds) && Product(ds) != 0.0
    ensures Cofactor(Diag(ds), i, i) / Det(Diag(ds)) == 1.0 / ds[i]
  {
    CofactorDiag(ds, i, i);
    ProductDropAt(ds, i);
    QuotientOfProduct(Product(ds), ds[i], Product(DropAt(ds, i)));
  }

  lemma QuotientOfProduct(p: real, x: real, q: real)
    requires p == x * q && p != 0.0
    ensures q / p == 1.0 / x
  {
    assert x != 0.0 && q != 0.0;
    assert (1.0 / x) * p == q;
  }

  /** The identity is the diagonal matrix of ones. */
  lemma IdentityIsDiag(n: nat, ones: seq<real>)
    requires |ones| == n && forall i :: 0 <= i < n ==> ones[i] == 1.0
    ensures Identity(n) == Diag(ones)
  {
    var a, b := Identity(n), Diag(ones);
    forall i | 0 <= i < n
      ensures a[i] == b[i]
    {
      assert |a[i]| == |b[i]|;
    }
  }

  /** The identity has determinant 1. */
  lemma DetIdentity(n: nat)
    requires n >= 1
    ensures Det(Identity(n)) == 1.0
  {
    var ones := seq(n, i => 1.0);
    IdentityIsDiag(n, ones);
    DetDiag(ones);
    ProductOnes(ones, n);
  }

  /** The minors of the identity: determinant 1 on the diagonal and 0 off it. */
  lemma DetMinorIdentity(n: nat, i: int, j: int)
    requires n >= 2 && 0 <= i < n && 0 <= j < n
    ensures IsSquare(Minor(Identity(n), i, j)) && |Minor(Identity(n), i, j)| == n - 1
    ensures Det(Minor(Identity(n), i, j)) == if i == j then 1.0 else 0.0
  {
    var ones := seq(n, i => 1.0);
    IdentityIsDiag(n, ones);
    DetMinorDiag(ones, i, j);
    ProductOnes(DropAt(ones, i), n - 1);
  }

  /** Every cofactor of the identity is the matching identity entry. */
  lemma CofactorIdentity(n: nat, i: int, j: int)
    requires n >= 2 && 0 <= i < n && 0 <= j < n
    ensures Cofactor(Identity(n), i, j) == if i == j then 1.0 else 0.0
  {
    var ones := seq(n, i => 1.0);
    IdentityIsDiag(n, ones);
    CofactorDiag(ones, i, j);
    ProductOnes(DropAt(ones, i), n - 1);
  }

  /** Entry (i, j) of the product of `a` and `b` over the first k terms:
      the sum of a[i][q] * b[q][j] for q < k. */
  function DotSum(a: seq<seq<real>>, b: seq<seq<real>>, i: int, j: int, k: int): real
    requires 0 <= i < |a| && 0 <= k <= |a[i]| && k <= |b| && 0 <= j
    requires forall q :: 0 <= q < k ==> j < |b[q]|
    decreases k
  {
    if k == 0 then 0.0 else DotSum(a, b, i, j, k - 1) + a[i][k - 1] * b[k - 1][j]
  }

  /** A row of one diagonal matrix against a column of another: only the
      diagonal product survives, once the sum has reached it. */
  lemma {:induction false} DotSumDiag(ds: seq<real>, es: seq<real>, i: int, j: int, k: int)
    requires |ds| == |es| && 0 <= i < |ds| && 0 <= j < |ds| && 0 <= k <= |ds|
    ensures DotSum(Diag(ds), Diag(es), i, j, k) == if i == j && i < k then ds[i] * es[i] else 0.0
    decreases k
  {
    if k > 0 {
      DotSumDiag(ds, es, i, j, k - 1);
      var x, y := Diag(ds)[i][k - 1], Diag(es)[k - 1][j];
      if i != k - 1 || j != k - 1 {
        ProductWithZero(x, y);
      }
    }
  }
}
