/** The range-sliced numeric kernels of MPI_solution/main2.cpp and the
    reduction that combines the ranks' partial results. `double` is modelled
    as `int`: every sum below is exact, so rounding, and the fact that
    summing per-rank partials rounds differently from one long sum, are not
    part of this model. Read-only `vector` arguments (passed by const
    reference) are sequences; the buffers the kernels overwrite are arrays. */
module Kernels {
  import Partition

  type Vector = seq<int>
  type Matrix = seq<seq<int>>

  // ---------------------------------------------------------------------
  // Specification functions

  /** u[0]*v[0] + ... + u[k-1]*v[k-1], accumulated left to right. */
  function DotUpTo(u: Vector, v: Vector, k: nat): int
    requires k <= |u| && k <= |v|
  {
    if k == 0 then 0 else DotUpTo(u, v, k - 1) + u[k - 1] * v[k - 1]
  }

  /** What matrix_vector_multiply stores for one row: the row times `vec`
      over every index of `vec`. */
  function RowTimes(row: Vector, vec: Vector): int
    requires |vec| <= |row|
  {
    DotUpTo(row, vec, |vec|)
  }

  /** The rows start..end-1 exist and are at least as long as `vec`: what
      matrix_vector_multiply needs to stay in bounds. An empty range needs
      nothing. */
  predicate RowsCover(m: Matrix, vec: Vector, start: int, end: int)
  {
    start < end ==> 0 <= start && end <= |m| && forall i :: start <= i < end ==> |vec| <= |m[i]|
  }

  /** The rows start..end-1 of m times vec, one entry per row. */
  function MatVec(m: Matrix, vec: Vector, start: int, end: int): (r: Vector)
    requires RowsCover(m, vec, start, end)
    ensures |r| == if start < end then end - start else 0
  {
    if end <= start then []
    else seq(end - start, k requires 0 <= k < end - start => RowTimes(m[start + k], vec))
  }

  /** The section x[0..end-start) and y[start..end) exist: what
      scalar_product_v2 needs to stay in bounds. */
  predicate SliceFits(x: Vector, y: Vector, start: int, end: int)
  {
    start < end ==> 0 <= start && end - start <= |x| && end <= |y|
  }

  /** The sum over start <= i < end of x[i - start] * y[i]: a section `x`
      holding rows start..end-1, dotted with the matching part of `y`. */
  function SliceDot(x: Vector, y: Vector, start: int, end: int): int
    requires SliceFits(x, y, start, end)
    decreases end - start
  {
    if end <= start then 0
    else SliceDot(x, y, start, end - 1) + x[end - 1 - start] * y[end - 1]
  }

  /** The sum over a <= i < b of (row i of m times vec) * y[i]: the part of
      <m vec, y> that the rows a..b-1 contribute. */
  function PartialDot(m: Matrix, vec: Vector, y: Vector, a: int, b: int): int
    requires RowsCover(m, vec, a, b) && (a < b ==> b <= |y|)
    decreases b - a
  {
    if b <= a then 0
    else PartialDot(m, vec, y, a, b - 1) + RowTimes(m[b - 1], vec) * y[b - 1]
  }

  /** A[i][0]*B[0][j] + ... + A[i][k-1]*B[k-1][j]. */
  function ProductUpTo(A: Matrix, B: Matrix, i: nat, j: nat, k: nat): int
    requires i < |A| && k <= |A[i]| && k <= |B|
    requires forall l :: 0 <= l < k ==> j < |B[l]|
  {
    if k == 0 then 0 else ProductUpTo(A, B, i, j, k - 1) + A[i][k - 1] * B[k - 1][j]
  }

  /** A and B have at least n rows and the first n rows have at least n
      entries: what matrix_multiply needs with n == |A|. */
  predicate CoversSquare(M: Matrix, n: nat)
  {
    n <= |M| && forall i :: 0 <= i < n ==> n <= |M[i]|
  }

  /** Column j of the first n rows of B. */
  function Column(B: Matrix, j: nat, n: nat): (c: Vector)
    requires CoversSquare(B, n) && j < n
    ensures |c| == n
  {
    seq(n, k requires 0 <= k < n => B[k][j])
  }

  // ---------------------------------------------------------------------
  // The kernels

  /** matrix_multiply: result[i][j] := sum over k < n of A[i][k] * B[k][j]
      for every i, j < n, where n is the number of rows of A. Entries of
      `result` outside the n x n block keep their values. */
  method MatrixMultiply(A: Matrix, B: Matrix, result: array2<int>)
    requires CoversSquare(A, |A|) && CoversSquare(B, |A|)
    requires |A| <= result.Length0 && |A| <= result.Length1
    modifies result
    ensures forall i, j :: 0 <= i < |A| && 0 <= j < |A| ==> result[i, j] == ProductUpTo(A, B, i, j, |A|)
    ensures forall i, j :: 0 <= i < result.Length0 && 0 <= j < result.Length1 && (|A| <= i || |A| <= j) ==>
      result[i, j] == old(result[i, j])
  {
    var n := |A|;
    var i := 0;
    while i < n
      invariant 0 <= i <= n
      invariant forall p, q :: 0 <= p < i && 0 <= q < n ==> result[p, q] == ProductUpTo(A, B, p, q, n)
      invariant forall p, q :: 0 <= p < result.Length0 && 0 <= q < result.Length1 && (i <= p || n <= q) ==>
        result[p, q] == old(result[p, q])
    {
      var j := 0;
      while j < n
        invariant 0 <= j <= n
        invariant forall p, q :: 0 <= p < i && 0 <= q < n ==> result[p, q] == ProductUpTo(A, B, p, q, n)
        invariant forall q :: 0 <= q < j ==> result[i, q] == ProductUpTo(A, B, i, q, n)
        invariant forall p, q :: (0 <= p < result.Length0 && 0 <= q < result.Length1 && (i < p || n <= q || (p == i && j <= q))) ==> result[p, q] == old(result[p, q])
      {
        result[i, j] := 0;
        var k := 0;
        while k < n
          invariant 0 <= k <= n
          invariant result[i, j] == ProductUpTo(A, B, i, j, k)
          invariant forall p, q :: 0 <= p < i && 0 <= q < n ==> result[p, q] == ProductUpTo(A, B, p, q, n)
          invariant forall q :: 0 <= q < j ==> result[i, q] == ProductUpTo(A, B, i, q, n)
          invariant forall p, q :: (0 <= p < result.Length0 && 0 <= q < result.Length1 && (i < p || n <= q || (p == i && j < q))) ==> result[p, q] == old(result[p, q])
        {
          result[i, j] := result[i, j] + A[i][k] * B[k][j];
          k := k + 1;
        }
        j := j + 1;
      }
      i := i + 1;
    }
  }

  /** scalar_product_v2: the sum over global_start <= i < global_end of
      local_section[i - global_start] * y[i]; 0 for an empty range. */
  method ScalarProduct(localSection: Vector, globalY: Vector, globalStart: int, globalEnd: int)
    returns (result: int)
    requires SliceFits(localSection, globalY, globalStart, globalEnd)
    ensures result == SliceDot(localSection, globalY, globalStart, globalEnd)
    ensures globalEnd <= globalStart ==> result == 0
  {
    result := 0;
    var i := globalStart;
    while i < globalEnd
      invariant globalStart <= i <= if globalStart < globalEnd then globalEnd else globalStart
      invariant result == SliceDot(localSection, globalY, globalStart, i)
    {
      result := result + localSection[i - globalStart] * globalY[i];
      i := i + 1;
    }
  }

  /** matrix_vector_multiply: result[i - start] := row i of `matrix` times
      `vec`, for start <= i < end; no other entry of `result` changes. */
  method MatrixVectorMultiply(matrix: Matrix, vec: Vector, result: array<int>, start: int, end: int)
    requires RowsCover(matrix, vec, start, end)
    requires start < end ==> end - start <= result.Length
    modifies result
    ensures start < end ==> result[..end - start] == MatVec(matrix, vec, start, end)
    ensures forall k :: (if start < end then end - start else 0) <= k < result.Length ==>
      result[k] == old(result[k])
  {
    var i := start;
    while i < end
      invariant start <= i <= if start < end then end else start
      invariant forall k :: 0 <= k < i - start ==> result[k] == RowTimes(matrix[start + k], vec)
      invariant forall k :: i - start <= k < result.Length ==> result[k] == old(result[k])
    {
      result[i - start] := 0;
      var j := 0;
      while j < |vec|
        invariant 0 <= j <= |vec|
        invariant result[i - start] == DotUpTo(matrix[i], vec, j)
        invariant forall k :: 0 <= k < i - start ==> result[k] == RowTimes(matrix[start + k], vec)
        invariant forall k :: i - start < k < result.Length ==> result[k] == old(result[k])
      {
        result[i - start] := result[i - start] + matrix[i][j] * vec[j];
        j := j + 1;
      }
      i := i + 1;
    }
  }

  // ---------------------------------------------------------------------
  // The reduction over ranks (main2.cpp lines 82-98)

  /** What the rank owning rows [start, end) passes to MPI_Reduce: its
      block of m x, computed into a section, dotted with y through
      scalar_product_v2. */
  function BlockPartial(m: Matrix, x: Vector, y: Vector, start: int, end: int): int
    requires RowsCover(m, x, start, end) && (start < end ==> end <= |y|)
  {
    SliceDot(MatVec(m, x, start, end), y, start, end)
  }

  /** MPI_Reduce with MPI_SUM over the first k blocks of the cut b. */
  function ReducedSum(m: Matrix, x: Vector, y: Vector, n: int, b: seq<int>, k: int): int
    requires Partition.IsCutOf(b, n) && 0 <= k < |b|
    requires |m| == n && |x| == n && |y| == n && forall i :: 0 <= i < n ==> |m[i]| == n
  {
    if k == 0 then 0 else ReducedSum(m, x, y, n, b, k - 1) + BlockPartial(m, x, y, b[k - 1], b[k])
  }

  /** A section whose entry k is row a+k of m times x, for a <= a+k < b,
      dotted with y gives the contribution of rows a..b-1 to <m x, y>. */
  lemma {:induction false} SectionDotOf(v: Vector, m: Matrix, x: Vector, y: Vector, a: int, b: int)
    requires RowsCover(m, x, a, b) && SliceFits(v, y, a, b)
    requires forall k :: 0 <= k < b - a ==> v[k] == RowTimes(m[a + k], x)
    ensures SliceDot(v, y, a, b) == PartialDot(m, x, y, a, b)
    decreases b - a
  {
    if a < b {
      SectionDotOf(v, m, x, y, a, b - 1);
      assert v[b - 1 - a] == RowTimes(m[b - 1], x);
    }
  }

  /** Computing the rows a..b-1 of m x into a section and dotting the
      section with y gives those rows' contribution to <m x, y>. */
  lemma SectionDot(m: Matrix, x: Vector, y: Vector, a: int, b: int)
    requires RowsCover(m, x, a, b) && (a < b ==> b <= |y|)
    ensures SliceDot(MatVec(m, x, a, b), y, a, b) == PartialDot(m, x, y, a, b)
  {
    SectionDotOf(MatVec(m, x, a, b), m, x, y, a, b);
  }

  /** Contributions of adjacent row ranges add up. */
  lemma {:induction false} PartialDotSplit(m: Matrix, x: Vector, y: Vector, a: int, b: int, c: int)
    requires 0 <= a <= b <= c <= |m| && c <= |y|
    requires forall i :: a <= i < c ==> |x| <= |m[i]|
    ensures PartialDot(m, x, y, a, c) == PartialDot(m, x, y, a, b) + PartialDot(m, x, y, b, c)
    decreases c - b
  {
    if b < c {
      PartialDotSplit(m, x, y, a, b, c - 1);
    }
  }

  /** The first k blocks together contribute the rows 0..b[k]-1. */
  lemma {:induction false} ReducedSumPrefix(m: Matrix, x: Vector, y: Vector, n: int, b: seq<int>, k: int)
    requires Partition.IsCutOf(b, n) && 0 <= k < |b|
    requires |m| == n && |x| == n && |y| == n && forall i :: 0 <= i < n ==> |m[i]| == n
    ensures 0 <= b[k] <= n
    ensures ReducedSum(m, x, y, n, b, k) == PartialDot(m, x, y, 0, b[k])
  {
    if k > 0 {
      ReducedSumPrefix(m, x, y, n, b, k - 1);
      SectionDot(m, x, y, b[k - 1], b[k]);
      PartialDotSplit(m, x, y, 0, b[k - 1], b[k]);
    }
  }

  /** Under exact arithmetic, summing every rank's partial scalar product
      (the MPI_Reduce of lines 97-98) gives the scalar product of the whole
      B x with y, as one process computing all n rows would; this holds for
      any cut of [0, n) into blocks, in particular the block distribution. */
  lemma ReductionIsFullProduct(m: Matrix, x: Vector, y: Vector, n: int, b: seq<int>)
    requires Partition.IsCutOf(b, n)
    requires |m| == n && |x| == n && |y| == n && forall i :: 0 <= i < n ==> |m[i]| == n
    ensures ReducedSum(m, x, y, n, b, |b| - 1) == SliceDot(MatVec(m, x, 0, n), y, 0, n)
  {
    ReducedSumPrefix(m, x, y, n, b, |b| - 1);
    SectionDot(m, x, y, 0, n);
  }

  /** One rank's share of lines 88-93: compute its rows [start, end) of
      B x into a fresh zeroed section and dot the section with y. */
  method RankPartialProduct(m: Matrix, x: Vector, y: Vector, start: int, end: int) returns (partial: int)
    requires 0 <= start <= end <= |m| && end <= |y|
    requires forall i :: start <= i < end ==> |x| <= |m[i]|
    ensures partial == PartialDot(m, x, y, start, end)
  {
    var localRows := end - start;
    var local := new int[localRows](_ => 0);
    MatrixVectorMultiply(m, x, local, start, end);
    assert local[..] == MatVec(m, x, start, end);
    partial := ScalarProduct(local[..], y, start, end);
    SectionDot(m, x, y, start, end);
  }

  /** Lines 82-98 for every rank in turn: each rank computes its partial
      scalar product, and the partials are summed as MPI_Reduce does. The
      total is the full-range product a single process would compute. */
  method DistributedScalarProduct(m: Matrix, x: Vector, y: Vector, n: int, size: int) returns (global: int)
    requires n >= 0 && size > 0
    requires |m| == n && |x| == n && |y| == n && forall i :: 0 <= i < n ==> |m[i]| == n
    ensures global == SliceDot(MatVec(m, x, 0, n), y, 0, n)
  {
    ghost var b := Partition.Boundaries(n, size);
    Partition.BoundariesCut(n, size);
    global := 0;
    var rank := 0;
    while rank < size
      invariant 0 <= rank <= size
      invariant global == ReducedSum(m, x, y, n, b, rank)
    {
      var r := Partition.Rows(n, size, rank);
      assert r == Partition.RowRange(b[rank], b[rank + 1]);
      var partial := RankPartialProduct(m, x, y, r.start, r.end);
      SectionDot(m, x, y, r.start, r.end);
      global := global + partial;
      rank := rank + 1;
    }
    ReductionIsFullProduct(m, x, y, n, b);
  }

  /** The entry matrix_multiply computes is row i of A times column j of B:
      the product agrees with matrix_vector_multiply's row sums. */
  lemma {:induction false} ProductIsRowTimesColumn(A: Matrix, B: Matrix, i: nat, j: nat, k: nat)
    requires CoversSquare(A, |A|) && CoversSquare(B, |A|) && i < |A| && j < |A| && k <= |A|
    ensures ProductUpTo(A, B, i, j, k) == DotUpTo(A[i], Column(B, j, |A|), k)
  {
    if k > 0 {
      ProductIsRowTimesColumn(A, B, i, j, k - 1);
    }
  }
}
