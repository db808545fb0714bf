/**
 * The matrix helpers of mat.cpp over real numbers. A matrix is an
 * `array2<real>` indexed (row, column); rows are OTUs and columns samples.
 *
 * `logf` and `sqrtf` are not part of this model: the logarithm is any
 * function passed in, and the square root any function that is never
 * negative and maps 0 to 0.
 */
module Mat {

  type SqrtFunction = f: real -> real | f(0.0) == 0.0 && forall x :: 0.0 <= f(x)
    witness (x: real) => 0.0

  /**
   * mat.cpp:4-8: position of cell (r, c) in column-major storage with `nrows`
   * rows. For a row inside the matrix, division by `nrows` recovers the
   * column and the remainder recovers the row.
   */
  function ColMajorIndex(nrows: nat, r: nat, c: nat): (idx: nat)
    ensures r < nrows ==> idx / nrows == c && idx % nrows == r
  {
    if r < nrows then DivModUnique(c * nrows + r, nrows, c, r); c * nrows + r
    else c * nrows + r
  }

  lemma MulLeq(a: nat, b: nat, n: nat)
    requires a <= b
    ensures a * n <= b * n
  {
  }

  /** Writing `x` as `q * n + s` with `s < n` fixes the quotient and the remainder. */
  lemma DivModUnique(x: nat, n: nat, q: nat, s: nat)
    requires s < n && x == q * n + s
    ensures x / n == q && x % n == s
  {
    var q', s' := x / n, x % n;
    assert x == q' * n + s';
    if q' < q {
      MulLeq(q' + 1, q, n);
      assert false;
    } else if q' > q {
      MulLeq(q + 1, q', n);
      assert false;
    }
  }

  /** mat.cpp:4-8: cells of an nrows x ncols matrix land inside its storage. */
  lemma ColMajorIndexInRange(nrows: nat, ncols: nat, r: nat, c: nat)
    requires r < nrows && c < ncols
    ensures ColMajorIndex(nrows, r, c) < nrows * ncols
  {
    MulLeq(c + 1, ncols, nrows);
  }

  /** mat.cpp:4-8: two cells inside the rows share a storage position only if they are the same cell. */
  lemma ColMajorIndexInjective(nrows: nat, r1: nat, c1: nat, r2: nat, c2: nat)
    requires r1 < nrows && r2 < nrows
    ensures ColMajorIndex(nrows, r1, c1) == ColMajorIndex(nrows, r2, c2) <==> r1 == r2 && c1 == c2
  {
  }

  /** Column `j` of `m`, top to bottom (`m.col(j)`). */
  function Column(m: array2<real>, j: nat): (col: seq<real>)
    requires j < m.Length1
    reads m
    ensures |col| == m.Length0
    ensures forall i :: 0 <= i < m.Length0 ==> col[i] == m[i, j]
  {
    seq(m.Length0, i requires 0 <= i < m.Length0 reads m => m[i, j])
  }

  /** `.sum()`, added from the front. */
  function Sum(s: seq<real>): real
  {
    if s == [] then 0.0 else Sum(s[..|s| - 1]) + s[|s| - 1]
  }

  /** Adding `c` to every entry adds `|s| * c` to the sum. */
  lemma {:induction false} SumShifted(s: seq<real>, t: seq<real>, c: real)
    requires |t| == |s|
    requires forall i :: 0 <= i < |s| ==> t[i] == s[i] + c
    ensures Sum(t) == Sum(s) + (|s| as real) * c
  {
    if s != [] {
      SumShifted(s[..|s| - 1], t[..|t| - 1], c);
    }
  }

  /** A sequence of zeros sums to zero. */
  lemma {:induction false} SumZeros(s: seq<real>)
    requires forall i :: 0 <= i < |s| ==> s[i] == 0.0
    ensures Sum(s) == 0.0
  {
    if s != [] {
      SumZeros(s[..|s| - 1]);
    }
  }

  /** `col.array().log()`. */
  function Logs(col: seq<real>, log: real -> real): (r: seq<real>)
    ensures |r| == |col|
    ensures forall i :: 0 <= i < |col| ==> r[i] == log(col[i])
  {
    seq(|col|, i requires 0 <= i < |col| => log(col[i]))
  }

  /** `log_col.sum() / log_col.size()`; an empty column has no cell to use it on, so 0 stands in. */
  function MeanLog(col: seq<real>, log: real -> real): (mean: real)
    ensures col == [] ==> mean == 0.0
    ensures col != [] ==> mean * (|col| as real) == Sum(Logs(col, log))
  {
    if col == [] then 0.0 else Sum(Logs(col, log)) / (|col| as real)
  }

  /** The centred log ratio of one column: each log minus the mean log of the column. */
  function Clr(col: seq<real>, log: real -> real): (r: seq<real>)
    ensures |r| == |col|
    ensures forall i :: 0 <= i < |col| ==> r[i] == log(col[i]) - MeanLog(col, log)
  {
    seq(|col|, i requires 0 <= i < |col| => log(col[i]) - MeanLog(col, log))
  }

  /** mat.cpp:14-21: every column of a CLR-transformed matrix sums to zero. */
  lemma ClrSumsToZero(col: seq<real>, log: real -> real)
    ensures Sum(Clr(col, log)) == 0.0
  {
    if col == [] {
    } else {
      var n := |col| as real;
      var logs := Logs(col, log);
      var mean := MeanLog(col, log);
      SumShifted(logs, Clr(col, log), -mean);
      assert mean * n == Sum(logs);
    }
  }

  /** Multiplying every entry by `a` multiplies `col` by `a` entrywise. */
  function Scaled(col: seq<real>, a: real): (r: seq<real>)
    ensures |r| == |col|
    ensures forall i :: 0 <= i < |col| ==> r[i] == a * col[i]
  {
    seq(|col|, i requires 0 <= i < |col| => a * col[i])
  }

  /**
   * mat.cpp:14-21: for a logarithm that turns products into sums, CLR depends
   * only on the proportions within a column, not on its total.
   */
  lemma ClrIgnoresScale(col: seq<real>, a: real, log: real -> real)
    requires forall i :: 0 <= i < |col| ==> log(a * col[i]) == log(a) + log(col[i])
    ensures Clr(Scaled(col, a), log) == Clr(col, log)
  {
    if col != [] {
      MeanLogScaled(col, a, log);
      var scaled := Scaled(col, a);
      forall i | 0 <= i < |col|
        ensures Clr(scaled, log)[i] == Clr(col, log)[i]
      {
        assert log(scaled[i]) == log(a) + log(col[i]);
      }
    }
  }

  /** Under the same logarithm, scaling a column shifts its mean log by `log(a)`. */
  lemma MeanLogScaled(col: seq<real>, a: real, log: real -> real)
    requires col != []
    requires forall i :: 0 <= i < |col| ==> log(a * col[i]) == log(a) + log(col[i])
    ensures MeanLog(Scaled(col, a), log) == MeanLog(col, log) + log(a)
  {
    var logs := Logs(col, log);
    var scaledLogs := Logs(Scaled(col, a), log);
    var n, x, y := |col| as real, Sum(logs), log(a);
    SumShifted(logs, scaledLogs, y);
    DivideShifted(x, y, n);
    calc {
      MeanLog(Scaled(col, a), log);
      Sum(scaledLogs) / n;
      (x + n * y) / n;
      x / n + y;
    }
  }

  lemma DivideShifted(x: real, y: real, n: real)
    requires n > 0.0
    ensures (x + n * y) / n == x / n + y
  {
  }

  /**
   * mat.cpp:10-22: replaces every cell by its log minus the mean log of its
   * column; the mean of column `j` is taken before any of its cells is
   * rewritten, and the other columns are untouched meanwhile.
   */
  method ClrInPlace(m: array2<real>, log: real -> real)
    modifies m
    ensures forall j :: 0 <= j < m.Length1 ==> Column(m, j) == Clr(old(Column(m, j)), log)
  {
    ghost var cols := seq(m.Length1, c requires 0 <= c < m.Length1 reads m => Column(m, c));
    var j := 0;
    while j < m.Length1
      invariant j <= m.Length1
      invariant forall c, r :: 0 <= c < j && 0 <= r < m.Length0 ==> m[r, c] == Clr(cols[c], log)[r]
      invariant forall c, r :: j <= c < m.Length1 && 0 <= r < m.Length0 ==> m[r, c] == cols[c][r]
    {
      assert Column(m, j) == cols[j];
      var meanLogCol := MeanLog(Column(m, j), log);
      CenterColumn(m, j, meanLogCol, log, cols[j]);
      j := j + 1;
    }
    forall c | 0 <= c < m.Length1 ensures Column(m, c) == Clr(old(Column(m, c)), log) {
      assert old(Column(m, c)) == cols[c];
      assert forall r :: 0 <= r < m.Length0 ==> Column(m, c)[r] == Clr(cols[c], log)[r];
    }
  }

  /** mat.cpp:16-20: the inner loop of `clr_in_place`, replacing each entry of column `j` by its log minus the column's mean log. */
  method CenterColumn(m: array2<real>, j: nat, meanLogCol: real, log: real -> real, ghost col: seq<real>)
    requires j < m.Length1 && |col| == m.Length0
    requires forall r :: 0 <= r < m.Length0 ==> m[r, j] == col[r]
    requires meanLogCol == MeanLog(col, log)
    modifies m
    ensures forall r :: 0 <= r < m.Length0 ==> m[r, j] == Clr(col, log)[r]
    ensures forall r, c :: 0 <= r < m.Length0 && 0 <= c < m.Length1 && c != j ==> m[r, c] == old(m[r, c])
  {
    var i := 0;
    while i < m.Length0
      invariant i <= m.Length0
      invariant forall r :: 0 <= r < i ==> m[r, j] == Clr(col, log)[r]
      invariant forall r :: i <= r < m.Length0 ==> m[r, j] == col[r]
      invariant forall r, c :: 0 <= r < m.Length0 && 0 <= c < m.Length1 && c != j ==> m[r, c] == old(m[r, c])
    {
      m[i, j] := log(m[i, j]) - meanLogCol;
      i := i + 1;
    }
  }

  /** `(v1 - v2).array().pow(2).sum()`. */
  function SquaredDistance(v1: seq<real>, v2: seq<real>): (r: real)
    requires |v1| == |v2|
    ensures r >= 0.0
  {
    var squares := seq(|v1|, i requires 0 <= i < |v1| => (v1[i] - v2[i]) * (v1[i] - v2[i]));
    SumNonNegative(squares);
    Sum(squares)
  }

  /** A sum of non-negative terms is not negative. */
  lemma {:induction false} SumNonNegative(s: seq<real>)
    requires forall i :: 0 <= i < |s| ==> s[i] >= 0.0
    ensures Sum(s) >= 0.0
  {
    if s != [] {
      SumNonNegative(s[..|s| - 1]);
    }
  }

  /** mat.cpp:24-29: Euclidean distance between two vectors of equal length. */
  function Distance(v1: seq<real>, v2: seq<real>, sqrt: SqrtFunction): (r: real)
    requires |v1| == |v2|
    ensures r >= 0.0
  {
    sqrt(SquaredDistance(v1, v2))
  }

  /** mat.cpp:24-29: a vector is at distance zero from itself. */
  lemma DistanceToSelf(v: seq<real>, sqrt: SqrtFunction)
    ensures Distance(v, v, sqrt) == 0.0
  {
    SumZeros(seq(|v|, i requires 0 <= i < |v| => (v[i] - v[i]) * (v[i] - v[i])));
  }

  /** mat.cpp:24-29: distance does not depend on the order of its arguments. */
  lemma DistanceSymmetric(v1: seq<real>, v2: seq<real>, sqrt: SqrtFunction)
    requires |v1| == |v2|
    ensures Distance(v1, v2, sqrt) == Distance(v2, v1, sqrt)
  {
    var a := seq(|v1|, i requires 0 <= i < |v1| => (v1[i] - v2[i]) * (v1[i] - v2[i]));
    var b := seq(|v2|, i requires 0 <= i < |v2| => (v2[i] - v1[i]) * (v2[i] - v1[i]));
    forall i | 0 <= i < |v1| ensures a[i] == b[i] {
      var x := v1[i] - v2[i];
      assert v2[i] - v1[i] == -x;
      assert (-x) * (-x) == x * x;
    }
    assert a == b;
  }

  /** The distances between every two columns of `m`, as a symmetric table of values. */
  lemma ColumnDistances(m: array2<real>, sqrt: SqrtFunction) returns (dists: seq<seq<real>>)
    ensures |dists| == m.Length1 && forall p :: 0 <= p < |dists| ==> |dists[p]| == |dists|
    ensures forall p, q :: 0 <= p < |dists| && 0 <= q < |dists| ==>
      dists[p][q] == Distance(Column(m, p), Column(m, q), sqrt)
    ensures forall p, q :: 0 <= p < |dists| && 0 <= q < |dists| ==> dists[p][q] == dists[q][p]
  {
    var n := m.Length1;
    var cols := seq(n, c requires 0 <= c < n reads m => Column(m, c));
    dists := seq(n, p requires 0 <= p < n => seq(n, q requires 0 <= q < n => Distance(cols[p], cols[q], sqrt)));
    forall p, q | 0 <= p < n && 0 <= q < n
      ensures dists[p][q] == Distance(Column(m, p), Column(m, q), sqrt)
      ensures dists[p][q] == dists[q][p]
    {
      assert cols[p] == Column(m, p) && cols[q] == Column(m, q);
      DistanceSymmetric(cols[p], cols[q], sqrt);
    }
  }

  /**
   * mat.cpp:34-52: an m.cols() x m.cols() matrix holding the distance between
   * every two columns, filled pair by pair above the diagonal and mirrored.
   */
  method ColwiseDistance(m: array2<real>, sqrt: SqrtFunction) returns (d: array2<real>)
    ensures fresh(d)
    ensures d.Length0 == m.Length1 && d.Length1 == m.Length1
    ensures forall p, q :: 0 <= p < m.Length1 && 0 <= q < m.Length1 ==>
      d[p, q] == if p == q then 0.0 else Distance(Column(m, p), Column(m, q), sqrt)
    ensures forall p, q :: 0 <= p < m.Length1 && 0 <= q < m.Length1 ==> d[p, q] == d[q, p] && d[p, q] >= 0.0
  {
    var n := m.Length1;
    ghost var dists := ColumnDistances(m, sqrt);
    d := new real[n, n]((_, _) => 0.0);
    var i := 0;
    while i < n - 1
      invariant i <= n
      invariant forall p, q :: 0 <= p < n && 0 <= q < n && Filled(p, q, i, i + 1) ==> d[p, q] == dists[p][q]
      invariant forall p, q :: 0 <= p < n && 0 <= q < n && !Filled(p, q, i, i + 1) ==> d[p, q] == 0.0
    {
      FillRow(d, m, i, sqrt, dists);
      i := i + 1;
    }
    forall p, q | 0 <= p < n && 0 <= q < n && p != q ensures d[p, q] == dists[p][q] {
      assert Filled(p, q, i, i + 1);
    }
  }

  /** mat.cpp:43-48: the inner loop of `colwise_distance`, filling row `i` right of the diagonal and its mirror. */
  method FillRow(d: array2<real>, m: array2<real>, i: nat, sqrt: SqrtFunction, ghost dists: seq<seq<real>>)
    requires d != m
    requires d.Length0 == m.Length1 && d.Length1 == m.Length1 && |dists| == m.Length1 && i + 1 < m.Length1
    requires forall p :: 0 <= p < |dists| ==> |dists[p]| == |dists|
    requires forall q :: i < q < |dists| ==> dists[q][i] == dists[i][q]
    requires forall q {:trigger Column(m, q)} :: i < q < |dists| ==> dists[i][q] == Distance(Column(m, i), Column(m, q), sqrt)
    requires forall p, q :: 0 <= p < |dists| && 0 <= q < |dists| && Filled(p, q, i, i + 1) ==> d[p, q] == dists[p][q]
    requires forall p, q :: 0 <= p < |dists| && 0 <= q < |dists| && !Filled(p, q, i, i + 1) ==> d[p, q] == 0.0
    modifies d
    ensures forall p, q :: 0 <= p < |dists| && 0 <= q < |dists| && Filled(p, q, i + 1, i + 2) ==> d[p, q] == dists[p][q]
    ensures forall p, q :: 0 <= p < |dists| && 0 <= q < |dists| && !Filled(p, q, i + 1, i + 2) ==> d[p, q] == 0.0
  {
    var n := m.Length1;
    var j := i + 1;
    while j < n
      invariant i < j <= n
      invariant forall p, q :: 0 <= p < n && 0 <= q < n && Filled(p, q, i, j) ==> d[p, q] == dists[p][q]
      invariant forall p, q :: 0 <= p < n && 0 <= q < n && !Filled(p, q, i, j) ==> d[p, q] == 0.0
    {
      var dist := Distance(Column(m, i), Column(m, j), sqrt);
      assert dist == dists[i][j] == dists[j][i];
      d[i, j] := dist;
      d[j, i] := dist;
      forall p, q | 0 <= p < n && 0 <= q < n && Filled(p, q, i, j + 1)
        ensures d[p, q] == dists[p][q]
      {
        if !(p == i && q == j) && !(p == j && q == i) {
          FilledStep(p, q, i, j);
        }
      }
      j := j + 1;
    }
  }

  lemma FilledStep(p: int, q: int, i: int, j: int)
    requires !(p == i && q == j) && !(p == j && q == i)
    ensures Filled(p, q, i, j + 1) == Filled(p, q, i, j)
  {
  }

  /** Cell (p, q) off the diagonal has been written once row `i` is filled up to column `j`. */
  predicate Filled(p: int, q: int, i: int, j: int)
  {
    p != q && (p < i || q < i || (p == i && q < j) || (q == i && p < j))
  }
}
