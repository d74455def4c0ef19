/** Block row distribution of MPI_solution/main2.cpp: rank `rank` of a
    communicator of `size` processes handles rows [start, end) of an n x n
    matrix. Every rank gets n / size rows and the first n % size ranks one
    more. With n >= 0 and size > 0 C's truncating `/` and `%` agree with
    Dafny's Euclidean ones. */
module Partition {

  datatype RowRange = RowRange(start: int, end: int)

  /** The first row of `rank`'s block (main2.cpp line 84); also defined for
      rank == size, where it is one past the last row. */
  function Start(n: int, size: int, rank: int): int
    requires n >= 0 && size > 0 && 0 <= rank <= size
  {
    var rowsPerProc := n / size;
    var extraRows := n % size;
    rank * rowsPerProc + if rank < extraRows then rank else extraRows
  }

  /** The rows given to `rank` (main2.cpp lines 82-86). */
  function Rows(n: int, size: int, rank: int): (r: RowRange)
    requires n >= 0 && size > 0 && 0 <= rank < size
    ensures 0 <= r.start <= r.end <= n
    ensures r.end - r.start == if rank < n % size then n / size + 1 else n / size
  {
    var rowsPerProc := n / size;
    var extraRows := n % size;
    var start := Start(n, size, rank);
    var end := start + rowsPerProc + (if rank < extraRows then 1 else 0);
    assert end <= Start(n, size, size) == n by {
      StartMonotone(n, size, rank + 1, size);
    }
    RowRange(start, end)
  }

  /** The block boundaries Start(0), ..., Start(size): rank r owns rows
      [b[r], b[r+1]). */
  function Boundaries(n: int, size: int): (b: seq<int>)
    requires n >= 0 && size > 0
    ensures |b| == size + 1
  {
    seq(size + 1, r requires 0 <= r <= size => Start(n, size, r))
  }

  /** `b` cuts [0, n) into consecutive, possibly empty, blocks. */
  predicate IsCutOf(b: seq<int>, n: int)
  {
    && |b| >= 1
    && b[0] == 0
    && b[|b| - 1] == n
    && forall i, j :: 0 <= i <= j < |b| ==> b[i] <= b[j]
  }

  /** The block distribution cuts [0, n) into `size` consecutive blocks, and
      rank r's rows are the r-th block. */
  lemma BoundariesCut(n: int, size: int)
    requires n >= 0 && size > 0
    ensures IsCutOf(Boundaries(n, size), n)
    ensures forall r :: 0 <= r < size ==>
      Rows(n, size, r) == RowRange(Boundaries(n, size)[r], Boundaries(n, size)[r + 1])
  {
    var b := Boundaries(n, size);
    StartPastLastRank(n, size);
    forall i, j | 0 <= i <= j < |b| ensures b[i] <= b[j] {
      StartMonotone(n, size, i, j);
    }
    forall r | 0 <= r < size ensures Rows(n, size, r) == RowRange(b[r], b[r + 1]) {
      Contiguous(n, size, r);
    }
  }

  /** Number of rows rank `rank` computes (main2.cpp line 86). */
  function LocalRows(n: int, size: int, rank: int): int
    requires n >= 0 && size > 0 && 0 <= rank < size
  {
    Rows(n, size, rank).end - Rows(n, size, rank).start
  }

  /** Starts never decrease with the rank. */
  lemma {:induction false} StartMonotone(n: int, size: int, r1: int, r2: int)
    requires n >= 0 && size > 0 && 0 <= r1 <= r2 <= size
    ensures Start(n, size, r1) <= Start(n, size, r2)
  {
    if r1 < r2 {
      StartMonotone(n, size, r1, r2 - 1);
      var q := n / size;
      assert Start(n, size, r2 - 1) + q <= Start(n, size, r2) by {
        assert (r2 - 1) * q + q == r2 * q;
      }
    }
  }

  /** Every block boundary lies in [0, n]. */
  lemma StartInRange(n: int, size: int, rank: int)
    requires n >= 0 && size > 0 && 0 <= rank <= size
    ensures 0 <= Start(n, size, rank) <= n
  {
    StartMonotone(n, size, 0, rank);
    StartMonotone(n, size, rank, size);
  }

  /** One past the last rank is row n. */
  lemma StartPastLastRank(n: int, size: int)
    requires n >= 0 && size > 0
    ensures Start(n, size, size) == n
  {
  }

  /** Rank 0 starts at row 0. */
  lemma FirstRankStartsAtZero(n: int, size: int)
    requires n >= 0 && size > 0
    ensures Rows(n, size, 0).start == 0
  {
  }

  /** The last rank ends at row n. */
  lemma LastRankEndsAtN(n: int, size: int)
    requires n >= 0 && size > 0
    ensures Rows(n, size, size - 1).end == n
  {
    var q := n / size;
    assert (size - 1) * q + q == size * q;
  }

  /** Each rank's block ends where the next rank's block starts. */
  lemma Contiguous(n: int, size: int, rank: int)
    requires n >= 0 && size > 0 && 0 <= rank < size
    ensures Rows(n, size, rank).end == Start(n, size, rank + 1)
    ensures rank + 1 < size ==> Rows(n, size, rank).end == Rows(n, size, rank + 1).start
  {
    var q := n / size;
    assert rank * q + q == (rank + 1) * q;
  }

  /** Any two ranks differ by at most one row. */
  lemma BalancedLoad(n: int, size: int, r1: int, r2: int)
    requires n >= 0 && size > 0 && 0 <= r1 < size && 0 <= r2 < size
    ensures -1 <= LocalRows(n, size, r1) - LocalRows(n, size, r2) <= 1
    ensures r1 <= r2 ==> LocalRows(n, size, r2) <= LocalRows(n, size, r1)
  {
  }

  /** Every row 0 <= i < n is owned by exactly one rank: the blocks partition
      [0, n). */
  lemma {:induction false} UniqueOwner(n: int, size: int, i: int)
    requires n >= 0 && size > 0 && 0 <= i < n
    ensures exists rank :: 0 <= rank < size && Rows(n, size, rank).start <= i < Rows(n, size, rank).end
    ensures forall r1, r2 ::
      0 <= r1 < size && 0 <= r2 < size &&
      Rows(n, size, r1).start <= i < Rows(n, size, r1).end &&
      Rows(n, size, r2).start <= i < Rows(n, size, r2).end
      ==> r1 == r2
  {
    OwnerBelow(n, size, size, i);
    forall r1, r2 |
      0 <= r1 < size && 0 <= r2 < size &&
      Rows(n, size, r1).start <= i < Rows(n, size, r1).end &&
      Rows(n, size, r2).start <= i < Rows(n, size, r2).end
      ensures r1 == r2
    {
      if r1 < r2 {
        Contiguous(n, size, r1);
        StartMonotone(n, size, r1 + 1, r2);
      } else if r2 < r1 {
        Contiguous(n, size, r2);
        StartMonotone(n, size, r2 + 1, r1);
      }
    }
  }

  /** A row below Start(k) belongs to one of the first k ranks. */
  lemma {:induction false} OwnerBelow(n: int, size: int, k: int, i: int)
    requires n >= 0 && size > 0 && 0 <= k <= size && 0 <= i < Start(n, size, k)
    ensures exists rank :: 0 <= rank < k && Rows(n, size, rank).start <= i < Rows(n, size, rank).end
  {
    // k == 0 cannot occur: Start(n, size, 0) == 0
    if k > 0 {
      Contiguous(n, size, k - 1);
      if i >= Start(n, size, k - 1) {
        assert Rows(n, size, k - 1).start <= i < Rows(n, size, k - 1).end;
      } else {
        OwnerBelow(n, size, k - 1, i);
      }
    }
  }
}
