/** The list-of-rows helpers that do not care what the entries are:
    `mat_rank`, `mat_minor`, `mat_visit` and `mat_visit_index`. Both GenMath
    files contain these with the same loops. */
module MatrixLists {
  import opened Python

  /** Every row is as long as the list of rows. */
  predicate IsSquare<T>(m: seq<seq<T>>) {
    forall k :: 0 <= k < |m| ==> |m[k]| == |m|
  }

  /** Every row has `cols` entries. */
  predicate IsRectangular<T>(m: seq<seq<T>>, cols: nat) {
    forall k :: 0 <= k < |m| ==> |m[k]| == cols
  }

  /** `mat_rank`: the size of a square matrix, 0 for no rows, and -1 as soon
      as one row's length differs from the number of rows. */
  function Rank<T>(m: seq<seq<T>>): (r: int)
    ensures r == -1 <==> !IsSquare(m)
    ensures r != -1 ==> r == |m|
  {
    if |m| == 0 then 0
    else if exists k :: 0 <= k < |m| && |m[k]| != |m| then -1
    else |m|
  }

  method MatRank<T>(m: seq<seq<T>>) returns (r: int)
    ensures r == Rank(m)
  {
    if |m| == 0 {
      return 0;
    }
    var size := |m|;
    for k := 0 to |m|
      invariant forall q :: 0 <= q < k ==> |m[q]| == size
    {
      if |m[k]| != size {
        return -1;
      }
    }
    return size;
  }

  /** The position that index `k` of a list with element `gone` removed has
      in the original list. */
  function Skip(k: int, gone: int): int {
    if 0 <= gone <= k then k + 1 else k
  }

  /** The list without its element at `k`, the others kept in order (the list
      itself when `k` is not an index of it); built one element at a time as
      the loops of `mat_minor` build rows. */
  function DropAt<T>(s: seq<T>, k: int): (r: seq<T>)
    ensures |r| == if 0 <= k < |s| then |s| - 1 else |s|
    ensures forall c {:trigger r[c]} :: 0 <= c < |r| ==> r[c] == s[Skip(c, k)]
  {
    if |s| == 0 then []
    else DropAt(s[..|s| - 1], k) + (if |s| - 1 == k then [] else [s[|s| - 1]])
  }

  /** `mat_minor`: row `i` and column `j` removed, built row by row. */
  function Minor<T>(m: seq<seq<T>>, i: int, j: int): (r: seq<seq<T>>)
    ensures |r| == if 0 <= i < |m| then |m| - 1 else |m|
    ensures forall k {:trigger r[k]} :: 0 <= k < |r| ==> r[k] == DropAt(m[Skip(k, i)], j)
  {
    if |m| == 0 then []
    else Minor(m[..|m| - 1], i, j) + (if |m| - 1 == i then [] else [DropAt(m[|m| - 1], j)])
  }

  /** The minor keeps every other entry at its place shifted past the
      removed row and column. */
  lemma MinorEntry<T>(m: seq<seq<T>>, i: int, j: int, r: int, c: int)
    requires 0 <= r < |Minor(m, i, j)| && 0 <= c < |Minor(m, i, j)[r]|
    ensures Skip(r, i) < |m| && Skip(c, j) < |m[Skip(r, i)]|
    ensures Minor(m, i, j)[r][c] == m[Skip(r, i)][Skip(c, j)]
  {
  }

  /** The minor of an n-by-n matrix at a valid position is (n-1)-by-(n-1). */
  lemma MinorSquare<T>(m: seq<seq<T>>, i: int, j: int)
    requires IsSquare(m) && 0 <= i < |m| && 0 <= j < |m|
    ensures |Minor(m, i, j)| == |m| - 1 && IsSquare(Minor(m, i, j))
  {
  }

  method MatMinor<T>(m: seq<seq<T>>, i: int, j: int) returns (r: seq<seq<T>>)
    ensures r == Minor(m, i, j)
  {
    r := [];
    for ri := 0 to |m|
      invariant r == Minor(m[..ri], i, j)
    {
      assert m[..ri + 1][..ri] == m[..ri];
      if ri == i {
        continue;
      }
      var row := [];
      for ci := 0 to |m[ri]|
        invariant row == DropAt(m[ri][..ci], j)
      {
        assert m[ri][..ci + 1][..ci] == m[ri][..ci];
        if ci == j {
          continue;
        }
        row := row + [m[ri][ci]];
      }
      assert m[ri][..|m[ri]|] == m[ri];
      r := r + [row];
    }
    assert m[..|m|] == m;
  }

  /** The entries `f` maps each entry of `m` to (with its position). */
  function MapMatrix<T, U>(m: seq<seq<T>>, f: T -> U): (r: seq<seq<U>>)
    ensures |r| == |m| && forall i :: 0 <= i < |m| ==> |r[i]| == |m[i]|
    ensures forall i, j :: 0 <= i < |m| && 0 <= j < |m[i]| ==> r[i][j] == f(m[i][j])
  {
    seq(|m|, i requires 0 <= i < |m| => seq(|m[i]|, j requires 0 <= j < |m[i]| => f(m[i][j])))
  }

  /** Taking a minor commutes with mapping every entry. */
  lemma MinorMap<T, U>(m: seq<seq<T>>, f: T -> U, i: int, j: int)
    ensures Minor(MapMatrix(m, f), i, j) == MapMatrix(Minor(m, i, j), f)
  {
    var a := Minor(MapMatrix(m, f), i, j);
    var b := MapMatrix(Minor(m, i, j), f);
    assert |a| == |b|;
    forall k | 0 <= k < |a|
      ensures a[k] == b[k]
    {
      assert |a[k]| == |b[k]|;
      forall c | 0 <= c < |a[k]|
        ensures a[k][c] == b[k][c]
      {
        MinorEntry(MapMatrix(m, f), i, j, k, c);
        MinorEntry(m, i, j, k, c);
      }
    }
  }

  /** Every position of `m` that `f` maps without raising. */
  predicate AllOk<T, U>(m: seq<seq<T>>, f: (T, int, int) -> Result<U>) {
    forall i, j :: 0 <= i < |m| && 0 <= j < |m[i]| ==> f(m[i][j], i, j).Ok?
  }

  /** One row of `mat_visit_index`: columns left to right, stopping at the
      first exception. */
  function VisitRow<T, U>(row: seq<T>, i: int, f: (T, int, int) -> Result<U>): (r: Result<seq<U>>)
    ensures r.Ok? <==> forall j :: 0 <= j < |row| ==> f(row[j], i, j).Ok?
    ensures r.Ok? ==> |r.value| == |row| && forall j :: 0 <= j < |row| ==> r.value[j] == f(row[j], i, j).value
  {
    if |row| == 0 then Ok([])
    else
      match VisitRow(row[..|row| - 1], i, f)
      case Err(e) => Err(e)
      case Ok(acc) =>
        match f(row[|row| - 1], i, |row| - 1)
        case Err(e) => Err(e)
        case Ok(x) => Ok(acc + [x])
  }

  /** `mat_visit_index`: rows top to bottom, stopping at the first exception. */
  function VisitIndex<T, U>(m: seq<seq<T>>, f: (T, int, int) -> Result<U>): (r: Result<seq<seq<U>>>)
    ensures r.Ok? <==> AllOk(m, f)
    ensures r.Ok? ==> |r.value| == |m|
    ensures r.Ok? ==> forall i :: 0 <= i < |m| ==> |r.value[i]| == |m[i]|
    ensures r.Ok? ==> forall i, j :: 0 <= i < |m| && 0 <= j < |m[i]| ==> r.value[i][j] == f(m[i][j], i, j).value
  {
    if |m| == 0 then Ok([])
    else
      match VisitIndex(m[..|m| - 1], f)
      case Err(e) => Err(e)
      case Ok(acc) =>
        match VisitRow(m[|m| - 1], |m| - 1, f)
        case Err(e) => Err(e)
        case Ok(row) => Ok(acc + [row])
  }

  /** `mat_visit`: the same walk with a function of the entry alone. */
  function Visit<T, U>(m: seq<seq<T>>, f: T -> Result<U>): (r: Result<seq<seq<U>>>)
    ensures r.Ok? <==> forall i, j :: 0 <= i < |m| && 0 <= j < |m[i]| ==> f(m[i][j]).Ok?
    ensures r.Ok? ==> |r.value| == |m|
    ensures r.Ok? ==> forall i :: 0 <= i < |m| ==> |r.value[i]| == |m[i]|
    ensures r.Ok? ==> forall i, j :: 0 <= i < |m| && 0 <= j < |m[i]| ==> r.value[i][j] == f(m[i][j]).value
  {
    var g := Unindexed(f);
    assert forall i, j :: 0 <= i < |m| && 0 <= j < |m[i]| ==> g(m[i][j], i, j) == f(m[i][j]);
    VisitIndex(m, g)
  }

  /** `f` as a visitor that ignores the position. */
  function Unindexed<T, U>(f: T -> Result<U>): (T, int, int) -> Result<U> {
    (x, i, j) => f(x)
  }

  /** A visit whose first entry raises raises that exception. */
  lemma VisitFirstErr<T, U>(m: seq<seq<T>>, f: T -> Result<U>)
    requires |m| > 0 && |m[0]| > 0 && f(m[0][0]).Err?
    ensures Visit(m, f) == Err(f(m[0][0]).error)
  {
    var g := Unindexed(f);
    assert m[0][..1][..0] == [];
    assert VisitRow(m[0][..1], 0, g) == Err(f(m[0][0]).error);
    VisitRowErrSticky(m[0], 1, 0, g);
    assert m[..1][..0] == [];
    assert VisitIndex(m[..1], g) == Err(f(m[0][0]).error);
    VisitIndexErrSticky(m, 1, g);
  }

  /** A visit whose function never raises builds the mapped matrix. */
  lemma VisitTotal<T, U>(m: seq<seq<T>>, g: T -> Result<U>, f: T -> U)
    requires forall x :: g(x) == Ok(f(x))
    ensures Visit(m, g) == Ok(MapMatrix(m, f))
  {
    var r := Visit(m, g);
    assert r.Ok?;
    var mm := MapMatrix(m, f);
    assert |r.value| == |mm|;
    forall i | 0 <= i < |m|
      ensures r.value[i] == mm[i]
    {
      assert |r.value[i]| == |mm[i]|;
      forall j | 0 <= j < |m[i]|
        ensures r.value[i][j] == mm[i][j]
      {
        assert g(m[i][j]) == Ok(f(m[i][j]));
      }
    }
    assert r.value == mm;
  }

  /** A visitor that only raises `kind` makes the visit raise only `kind`. */
  lemma VisitIndexErrKind<T, U>(m: seq<seq<T>>, f: (T, int, int) -> Result<U>, kind: PyError)
    requires forall i, j :: 0 <= i < |m| && 0 <= j < |m[i]| && f(m[i][j], i, j).Err? ==> f(m[i][j], i, j).error == kind
    ensures VisitIndex(m, f).Err? ==> VisitIndex(m, f).error == kind
  {
    if |m| > 0 {
      VisitIndexErrKind(m[..|m| - 1], f, kind);
      VisitRowErrKind(m[|m| - 1], |m| - 1, f, kind);
    }
  }

  lemma VisitRowErrKind<T, U>(row: seq<T>, i: int, f: (T, int, int) -> Result<U>, kind: PyError)
    requires forall j :: 0 <= j < |row| && f(row[j], i, j).Err? ==> f(row[j], i, j).error == kind
    ensures VisitRow(row, i, f).Err? ==> VisitRow(row, i, f).error == kind
  {
    if |row| > 0 {
      VisitRowErrKind(row[..|row| - 1], i, f, kind);
    }
  }

  /** One more entry of a row: the visit of the longer prefix extends the
      shorter one, or raises what the new entry raises. */
  lemma VisitRowStep<T, U>(row: seq<T>, k: nat, i: int, f: (T, int, int) -> Result<U>, acc: seq<U>)
    requires k < |row| && VisitRow(row[..k], i, f) == Ok(acc)
    ensures f(row[k], i, k).Ok? ==> VisitRow(row[..k + 1], i, f) == Ok(acc + [f(row[k], i, k).value])
    ensures f(row[k], i, k).Err? ==> VisitRow(row[..k + 1], i, f) == Err(f(row[k], i, k).error)
  {
    assert row[..k + 1][..k] == row[..k];
  }

  /** One more row: the visit of the longer prefix extends the shorter one,
      or raises what the new row raises. */
  lemma VisitIndexStep<T, U>(m: seq<seq<T>>, k: nat, f: (T, int, int) -> Result<U>, acc: seq<seq<U>>)
    requires k < |m| && VisitIndex(m[..k], f) == Ok(acc)
    ensures VisitRow(m[k], k, f).Ok? ==> VisitIndex(m[..k + 1], f) == Ok(acc + [VisitRow(m[k], k, f).value])
    ensures VisitRow(m[k], k, f).Err? ==> VisitIndex(m[..k + 1], f) == Err(VisitRow(m[k], k, f).error)
  {
    assert m[..k + 1][..k] == m[..k];
  }

  /** Once a prefix of a row raises, the whole row raises the same. */
  lemma {:induction false} VisitRowErrSticky<T, U>(row: seq<T>, k: nat, i: int, f: (T, int, int) -> Result<U>)
    requires k <= |row| && VisitRow(row[..k], i, f).Err?
    ensures VisitRow(row, i, f) == VisitRow(row[..k], i, f)
    decreases |row| - k
  {
    if k < |row| {
      VisitRowErrSticky(row, k + 1, i, f);
      assert row[..k + 1][..k] == row[..k];
      assert row[..|row|] == row;
    } else {
      assert row[..k] == row;
    }
  }

  /** Once a prefix of the rows raises, the whole visit raises the same. */
  lemma {:induction false} VisitIndexErrSticky<T, U>(m: seq<seq<T>>, k: nat, f: (T, int, int) -> Result<U>)
    requires k <= |m| && VisitIndex(m[..k], f).Err?
    ensures VisitIndex(m, f) == VisitIndex(m[..k], f)
    decreases |m| - k
  {
    if k < |m| {
      VisitIndexErrSticky(m, k + 1, f);
      assert m[..k + 1][..k] == m[..k];
    } else {
      assert m[..k] == m;
    }
  }

  method MatVisitIndex<T, U>(m: seq<seq<T>>, f: (T, int, int) -> Result<U>) returns (r: Result<seq<seq<U>>>)
    ensures r == VisitIndex(m, f)
  {
    var acc := [];
    for i := 0 to |m|
      invariant VisitIndex(m[..i], f) == Ok(acc)
    {
      assert m[..i + 1][..i] == m[..i];
      var row := [];
      for j := 0 to |m[i]|
        invariant VisitRow(m[i][..j], i, f) == Ok(row)
      {
        assert m[i][..j + 1][..j] == m[i][..j];
        var x := f(m[i][j], i, j);
        if x.Err? {
          VisitRowErrSticky(m[i], j + 1, i, f);
          assert m[i][..|m[i]|] == m[i];
          VisitIndexErrSticky(m, i + 1, f);
          return Err(x.error);
        }
        row := row + [x.value];
      }
      assert m[i][..|m[i]|] == m[i];
      acc := acc + [row];
    }
    assert m[..|m|] == m;
    return Ok(acc);
  }

  method MatVisit<T, U>(m: seq<seq<T>>, f: T -> Result<U>) returns (r: Result<seq<seq<U>>>)
    ensures r == Visit(m, f)
  {
    r := MatVisitIndex(m, (x, i, j) => f(x));
  }
}
