/** The log-derivative error metric: the energy grid is sorted, the data rows
    follow the same permutation, only energies inside a closed window are
    kept, and the per-row errors are averaged per angular momentum. */
module Calcfunctions {
  import opened Wrappers
  import opened Tables

  // ---------------------------------------------------------------------
  // Ordering of grid cells
  // ---------------------------------------------------------------------

  /** The order numpy sorts in: numbers ascending, NaN (`None`) last. */
  predicate CellLe(a: Option<real>, b: Option<real>)
  {
    b.None? || (a.Some? && a.value <= b.value)
  }

  predicate Ascending(row: Row)
  {
    forall i, j :: 0 <= i < j < |row| ==> CellLe(row[i], row[j])
  }

  /** The row read at the given positions, in their order. Both numpy's
      integer indexing (after the argsort) and its boolean mask (after the
      window) are gathers. */
  function Gather<T>(row: seq<T>, pos: seq<nat>): (r: seq<T>)
    requires forall k :: 0 <= k < |pos| ==> pos[k] < |row|
    ensures |r| == |pos|
  {
    seq(|pos|, k requires 0 <= k < |pos| => row[pos[k]])
  }

  // ---------------------------------------------------------------------
  // The argsort
  // ---------------------------------------------------------------------

  function Range(n: nat): (r: seq<nat>)
    ensures |r| == n
    ensures forall i :: 0 <= i < n ==> r[i] == i
  {
    seq(n, i requires 0 <= i < n => i)
  }

  /** `idx` lists every position below `n` exactly once. */
  ghost predicate IsPermutation(idx: seq<nat>, n: nat)
  {
    multiset(idx) == multiset(Range(n))
  }

  /** The positions in `idx` visit the grid in ascending order. */
  predicate SortedBy(grid: Row, idx: seq<nat>)
    requires forall k :: 0 <= k < |idx| ==> idx[k] < |grid|
  {
    forall i, j :: 0 <= i < j < |idx| ==> CellLe(grid[idx[i]], grid[idx[j]])
  }

  /** Inserts position `k` into a sorted list of positions. */
  function Insert(grid: Row, k: nat, idx: seq<nat>): (r: seq<nat>)
    requires k < |grid|
    requires forall i :: 0 <= i < |idx| ==> idx[i] < |grid|
    requires SortedBy(grid, idx)
    ensures multiset(r) == multiset(idx) + multiset{k}
    ensures forall i :: 0 <= i < |r| ==> r[i] < |grid|
    ensures SortedBy(grid, r)
  {
    if |idx| == 0 then [k]
    else if CellLe(grid[k], grid[idx[0]]) then [k] + idx
    else
      var rest := Insert(grid, k, idx[1..]);
      HeadPrecedes(grid, k, idx, rest);
      [idx[0]] + rest
  }

  /** The head of a sorted position list precedes both the rest of the list
      and a position that sorts after it, so it precedes any arrangement of
      them. */
  lemma HeadPrecedes(grid: Row, k: nat, idx: seq<nat>, rest: seq<nat>)
    requires k < |grid| && |idx| > 0
    requires forall i :: 0 <= i < |idx| ==> idx[i] < |grid|
    requires forall i :: 0 <= i < |rest| ==> rest[i] < |grid|
    requires SortedBy(grid, idx)
    requires !CellLe(grid[k], grid[idx[0]])
    requires multiset(rest) == multiset(idx[1..]) + multiset{k}
    ensures multiset([idx[0]] + rest) == multiset(idx) + multiset{k}
    ensures forall j :: 0 <= j < |rest| ==> CellLe(grid[idx[0]], grid[rest[j]])
  {
    assert idx == [idx[0]] + idx[1..];
    forall j | 0 <= j < |rest|
      ensures CellLe(grid[idx[0]], grid[rest[j]])
    {
      assert rest[j] in multiset(rest);
      if rest[j] != k {
        assert rest[j] in idx[1..];
      }
    }
  }

  /** Positions `0 .. n-1` inserted one by one. */
  function InsertAll(grid: Row, n: nat): (r: seq<nat>)
    requires n <= |grid|
    ensures multiset(r) == multiset(Range(n))
    ensures forall i :: 0 <= i < |r| ==> r[i] < |grid|
    ensures SortedBy(grid, r)
  {
    if n == 0 then []
    else
      assert Range(n) == Range(n - 1) + [n - 1];
      Insert(grid, n - 1, InsertAll(grid, n - 1))
  }

  /** The permutation that sorts the grid. */
  function ArgSort(grid: Row): (idx: seq<nat>)
    ensures IsPermutation(idx, |grid|)
    ensures forall k :: 0 <= k < |idx| ==> idx[k] < |grid|
    ensures Ascending(Gather(grid, idx))
  {
    InsertAll(grid, |grid|)
  }

  /** A permutation of `0 .. n-1` has length `n`, stays in range, and
      misses no position. */
  lemma PermutationCovers(idx: seq<nat>, n: nat)
    requires IsPermutation(idx, n)
    ensures |idx| == n
    ensures forall k :: 0 <= k < |idx| ==> idx[k] < n
    ensures forall j :: 0 <= j < n ==> j in idx
  {
    assert |multiset(idx)| == |multiset(Range(n))|;
    forall k | 0 <= k < |idx|
      ensures idx[k] < n
    {
      assert idx[k] in multiset(idx);
      assert idx[k] in Range(n);
    }
    forall j | 0 <= j < n
      ensures j in idx
    {
      assert Range(n)[j] == j;
      assert j in multiset(Range(n));
    }
  }

  // ---------------------------------------------------------------------
  // The window
  // ---------------------------------------------------------------------

  /** A grid cell inside the closed window; NaN compares false both ways. */
  predicate InWindow(c: Option<real>, eMin: real, eMax: real)
  {
    c.Some? && eMin <= c.value && c.value <= eMax
  }

  /** The positions of the cells the window keeps, in increasing order. */
  function Kept(grid: Row, eMin: real, eMax: real): (pos: seq<nat>)
    ensures |pos| <= |grid|
    ensures forall k :: 0 <= k < |pos| ==> pos[k] < |grid|
    ensures forall k, m :: 0 <= k < m < |pos| ==> pos[k] < pos[m]
    ensures forall j :: 0 <= j < |grid| ==> (j in pos <==> InWindow(grid[j], eMin, eMax))
  {
    if |grid| == 0 then []
    else
      var n := |grid| - 1;
      Kept(grid[..n], eMin, eMax) + (if InWindow(grid[n], eMin, eMax) then [n] else [])
  }

  // ---------------------------------------------------------------------
  // The input arrays and the windowed data
  // ---------------------------------------------------------------------

  /** The arrays of a log-derivatives node: the angular momentum of every
      row, the energy table, and the all-electron and pseudo log-derivative
      tables. */
  datatype LogDerivativeArrays = LogDerivativeArrays(l: seq<nat>, e: seq<Row>, ae: seq<Row>, ps: seq<Row>)

  /** The three tables share one rectangular shape with one row per `l`, as
      the parser builds them. */
  predicate WellShaped(a: LogDerivativeArrays)
  {
    && |a.l| == |a.e| == |a.ae| == |a.ps|
    && (forall i :: 0 <= i < |a.e| ==> |a.e[i]| == |a.e[0]| && |a.ae[i]| == |a.e[0]| && |a.ps[i]| == |a.e[0]|)
  }

  /** The check that the difference of every pair of consecutive energy
      rows is zero: it holds for fewer than two rows, and otherwise fails on
      any NaN cell. It holds exactly when every row equals the first and the
      first has no NaN cell. */
  function GridConsistent(e: seq<Row>): (ok: bool)
    ensures ok <==> (|e| <= 1 ||
      ((forall i :: 0 <= i < |e| ==> e[i] == e[0]) && (forall j :: 0 <= j < |e[0]| ==> e[0][j].Some?)))
  {
    ChainedRowsEqual(e);
    |e| <= 1 ||
      ((forall i :: 0 < i < |e| ==> e[i] == e[i - 1])
       && (forall i, j :: 0 <= i < |e| && 0 <= j < |e[i]| ==> e[i][j].Some?))
  }

  /** Consecutive rows are equal exactly when every row equals the first. */
  lemma {:induction false} ChainedRowsEqual(e: seq<Row>)
    ensures (forall i :: 0 < i < |e| ==> e[i] == e[i - 1]) <==> (forall i :: 0 <= i < |e| ==> e[i] == e[0])
    decreases |e|
  {
    if |e| > 1 {
      var p := e[..|e| - 1];
      ChainedRowsEqual(p);
      assert forall i :: 0 <= i < |p| ==> p[i] == e[i];
      if forall i :: 0 < i < |e| ==> e[i] == e[i - 1] {
        assert forall i :: 0 < i < |p| ==> p[i] == p[i - 1];
        assert e[|e| - 1] == e[|e| - 2];
      }
    }
  }

  /** The data left after sorting and windowing. */
  datatype Window = Window(energies: Row, ae: seq<Row>, ps: seq<Row>)

  /** The grid positions the window keeps, in ascending order of energy:
      the argsort read at the positions the mask keeps in the sorted grid.
      Sorting and then masking a row is reading it at these positions. */
  function WindowPositions(grid: Row, eMin: real, eMax: real): (src: seq<nat>)
    ensures forall k :: 0 <= k < |src| ==> src[k] < |grid|
  {
    var idx := ArgSort(grid);
    Gather(idx, Kept(Gather(grid, idx), eMin, eMax))
  }

  /** Reading a row at `idx` and then at `pos` is reading it at `idx` read
      at `pos`. */
  lemma GatherGather<T>(row: seq<T>, idx: seq<nat>, pos: seq<nat>)
    requires forall k :: 0 <= k < |idx| ==> idx[k] < |row|
    requires forall k :: 0 <= k < |pos| ==> pos[k] < |idx|
    ensures Gather(Gather(row, idx), pos) == Gather(row, Gather(idx, pos))
  {
  }

  /** Permuting a row of the grid's length by the argsort and then masking
      it with the window reads it at the window positions, as the data rows
      are permuted and masked beside the grid. */
  lemma SortThenMaskReadsWindowPositions(grid: Row, row: Row, eMin: real, eMax: real)
    requires |row| == |grid|
    ensures var idx := ArgSort(grid);
      Gather(Gather(row, idx), Kept(Gather(grid, idx), eMin, eMax)) == Gather(row, WindowPositions(grid, eMin, eMax))
  {
    var idx := ArgSort(grid);
    PermutationCovers(idx, |grid|);
    GatherGather(row, idx, Kept(Gather(grid, idx), eMin, eMax));
  }

  /** The grid sorted and cut to the window: an ascending row, no longer
      than the grid, of energies inside the window. */
  function WindowedGrid(grid: Row, eMin: real, eMax: real): (w: Row)
    ensures Ascending(w)
    ensures |w| <= |grid|
    ensures forall k :: 0 <= k < |w| ==> InWindow(w[k], eMin, eMax)
  {
    var idx := ArgSort(grid);
    var sorted := Gather(grid, idx);
    var pos := Kept(sorted, eMin, eMax);
    PermutationCovers(idx, |grid|);
    GatherIncreasing(sorted, pos);
    GatherGather(grid, idx, pos);
    Gather(grid, WindowPositions(grid, eMin, eMax))
  }

  /** Sorts the common grid, permutes every data row with the same
      permutation, then keeps the columns whose energy is in the window. */
  function SortAndWindow(a: LogDerivativeArrays, eMin: real, eMax: real): (w: Window)
    requires WellShaped(a) && |a.e| > 0
    ensures w.energies == WindowedGrid(a.e[0], eMin, eMax)
    ensures |w.ae| == |a.ae| && |w.ps| == |a.ps|
    ensures forall i :: 0 <= i < |w.ae| ==> |w.ae[i]| == |w.energies| && |w.ps[i]| == |w.energies|
  {
    var src := WindowPositions(a.e[0], eMin, eMax);
    Window(
      Gather(a.e[0], src),
      seq(|a.ae|, i requires 0 <= i < |a.ae| => Gather(a.ae[i], src)),
      seq(|a.ps|, i requires 0 <= i < |a.ps| => Gather(a.ps[i], src)))
  }

  /** Reading an ascending row at increasing positions gives an ascending row. */
  lemma GatherIncreasing(row: Row, pos: seq<nat>)
    requires Ascending(row)
    requires forall k :: 0 <= k < |pos| ==> pos[k] < |row|
    requires forall k, m :: 0 <= k < m < |pos| ==> pos[k] < pos[m]
    ensures Ascending(Gather(row, pos))
  {
    var g := Gather(row, pos);
    forall k, m | 0 <= k < m < |g|
      ensures CellLe(g[k], g[m])
    {
      assert g[k] == row[pos[k]] && g[m] == row[pos[m]];
    }
  }

  /** The windowed grid is ascending and holds exactly the energies of the
      grid that lie in the closed window. */
  lemma WindowSelectsEnergies(grid: Row, eMin: real, eMax: real)
    ensures var w := WindowedGrid(grid, eMin, eMax);
      && Ascending(w)
      && (forall k :: 0 <= k < |w| ==> InWindow(w[k], eMin, eMax))
      && (forall c :: c in w <==> c in grid && InWindow(c, eMin, eMax))
  {
    var idx := ArgSort(grid);
    var sorted := Gather(grid, idx);
    var pos := Kept(sorted, eMin, eMax);
    var w := WindowedGrid(grid, eMin, eMax);
    PermutationCovers(idx, |grid|);
    GatherGather(grid, idx, pos);
    assert w == Gather(sorted, pos);
    GatherIncreasing(sorted, pos);
    forall c | c in grid && InWindow(c, eMin, eMax)
      ensures c in w
    {
      var j :| 0 <= j < |grid| && grid[j] == c;
      assert j in idx;
      var k :| 0 <= k < |idx| && idx[k] == j;
      assert sorted[k] == c;
      var m :| 0 <= m < |pos| && pos[m] == k;
      assert w[m] == c;
    }
    forall c | c in w
      ensures c in grid && InWindow(c, eMin, eMax)
    {
      var m :| 0 <= m < |w| && w[m] == c;
      assert c == sorted[pos[m]];
    }
  }

  /** The kept columns come from distinct grid positions, which are exactly
      the positions whose energy lies in the window; in every row the energy
      and both log-derivative values of a kept column are those of its
      position: the pairs stay aligned. */
  lemma WindowKeepsPairsAligned(a: LogDerivativeArrays, eMin: real, eMax: real)
    requires WellShaped(a) && |a.e| > 0
    ensures var w := SortAndWindow(a, eMin, eMax);
      var src := WindowPositions(a.e[0], eMin, eMax);
      && |src| == |w.energies|
      && (forall k, m :: 0 <= k < m < |src| ==> src[k] != src[m])
      && (forall k :: 0 <= k < |src| ==> InWindow(a.e[0][src[k]], eMin, eMax))
      && (forall j :: 0 <= j < |a.e[0]| && InWindow(a.e[0][j], eMin, eMax) ==> j in src)
      && (forall k :: 0 <= k < |src| ==> w.energies[k] == a.e[0][src[k]])
      && (forall i, k :: 0 <= i < |a.ae| && 0 <= k < |src| ==>
            w.ae[i][k] == a.ae[i][src[k]] && w.ps[i][k] == a.ps[i][src[k]])
  {
    var grid := a.e[0];
    var idx := ArgSort(grid);
    var pos := Kept(Gather(grid, idx), eMin, eMax);
    var src := WindowPositions(a.e[0], eMin, eMax);
    forall k, m | 0 <= k < m < |src|
      ensures src[k] != src[m]
    {
      PermutationDistinct(idx, |grid|, pos[k], pos[m]);
    }
    SourcesAreWindowed(a, eMin, eMax);
  }

  /** The source positions are exactly the grid positions in the window. */
  lemma SourcesAreWindowed(a: LogDerivativeArrays, eMin: real, eMax: real)
    requires WellShaped(a) && |a.e| > 0
    ensures var src := WindowPositions(a.e[0], eMin, eMax);
      && (forall k :: 0 <= k < |src| ==> InWindow(a.e[0][src[k]], eMin, eMax))
      && (forall j :: 0 <= j < |a.e[0]| && InWindow(a.e[0][j], eMin, eMax) ==> j in src)
  {
    PermutedWindow(a.e[0], ArgSort(a.e[0]), eMin, eMax);
  }

  /** Windowing a permuted grid keeps exactly the grid positions whose energy
      lies in the window. */
  lemma PermutedWindow(grid: Row, idx: seq<nat>, eMin: real, eMax: real)
    requires IsPermutation(idx, |grid|)
    requires forall k :: 0 <= k < |idx| ==> idx[k] < |grid|
    ensures var src := Gather(idx, Kept(Gather(grid, idx), eMin, eMax));
      && (forall k :: 0 <= k < |src| ==> InWindow(grid[src[k]], eMin, eMax))
      && (forall j :: 0 <= j < |grid| && InWindow(grid[j], eMin, eMax) ==> j in src)
  {
    var sorted := Gather(grid, idx);
    var pos := Kept(sorted, eMin, eMax);
    var src := Gather(idx, pos);
    PermutationCovers(idx, |grid|);
    forall k | 0 <= k < |src|
      ensures InWindow(grid[src[k]], eMin, eMax)
    {
      assert sorted[pos[k]] == grid[src[k]];
    }
    forall j | 0 <= j < |grid| && InWindow(grid[j], eMin, eMax)
      ensures j in src
    {
      assert j in idx;
      var k :| 0 <= k < |idx| && idx[k] == j;
      assert sorted[k] == grid[j];
      var m :| 0 <= m < |pos| && pos[m] == k;
      assert src[m] == j;
    }
  }

  /** A permutation never repeats a position. */
  lemma PermutationDistinct(idx: seq<nat>, n: nat, p: nat, q: nat)
    requires IsPermutation(idx, n)
    requires p < q < |idx|
    ensures idx[p] != idx[q]
  {
    PermutationCovers(idx, n);
    RangeCountsOnce(n, idx[p]);
    var rest := idx[..p] + idx[p + 1..];
    assert idx == idx[..p] + [idx[p]] + idx[p + 1..];
    assert rest[q - 1] == idx[q];
    assert multiset(idx) == multiset(rest) + multiset{idx[p]};
    assert idx[q] in multiset(rest);
  }

  lemma {:induction false} RangeCountsOnce(n: nat, x: nat)
    requires x < n
    ensures multiset(Range(n))[x] == 1
  {
    assert Range(n) == Range(n - 1) + [n - 1];
    if x < n - 1 {
      RangeCountsOnce(n - 1, x);
    } else {
      assert x !in Range(n - 1);
    }
  }

  // ---------------------------------------------------------------------
  // Per-l averaging
  // ---------------------------------------------------------------------

  /** The largest angular momentum. */
  function MaxL(l: seq<nat>): (m: nat)
    requires |l| > 0
    ensures forall i :: 0 <= i < |l| ==> l[i] <= m
    ensures exists i :: 0 <= i < |l| && l[i] == m
  {
    if |l| == 1 then l[0]
    else
      var rest := MaxL(l[1..]);
      assert forall i :: 1 <= i < |l| ==> l[i] == l[1..][i - 1];
      if l[0] >= rest then l[0] else rest
  }

  /** The number of rows with angular momentum `b`. */
  function CountFor(l: seq<nat>, b: nat): (n: nat)
    ensures n <= |l|
  {
    if |l| == 0 then 0
    else CountFor(l[..|l| - 1], b) + (if l[|l| - 1] == b then 1 else 0)
  }

  /** The sum of the errors of the rows with angular momentum `b`: zero when
      no row has it, and never negative when no error is. */
  function SumFor(l: seq<nat>, errs: seq<real>, b: nat): (r: real)
    requires |l| == |errs|
    ensures CountFor(l, b) == 0 ==> r == 0.0
    ensures (forall i :: 0 <= i < |errs| ==> errs[i] >= 0.0) ==> r >= 0.0
  {
    if |l| == 0 then 0.0
    else SumFor(l[..|l| - 1], errs[..|errs| - 1], b) + (if l[|l| - 1] == b then errs[|errs| - 1] else 0.0)
  }

  /** The bucket counts of `0 .. upTo-1`, added up. */
  function TotalCount(l: seq<nat>, upTo: nat): nat
  {
    if upTo == 0 then 0 else TotalCount(l, upTo - 1) + CountFor(l, upTo - 1)
  }

  lemma {:induction false} TotalCountStep(l: seq<nat>, upTo: nat)
    requires |l| > 0
    ensures TotalCount(l, upTo) ==
      TotalCount(l[..|l| - 1], upTo) + (if l[|l| - 1] < upTo then 1 else 0)
  {
    if upTo > 0 {
      TotalCountStep(l, upTo - 1);
    }
  }

  /** Every row lands in exactly one bucket: the counts of buckets
      `0 .. m` add up to the number of rows. */
  lemma {:induction false} CountsPartitionRows(l: seq<nat>, m: nat)
    requires forall i :: 0 <= i < |l| ==> l[i] <= m
    ensures TotalCount(l, m + 1) == |l|
  {
    if |l| > 0 {
      CountsPartitionRows(l[..|l| - 1], m);
      TotalCountStep(l, m + 1);
    } else {
      TotalCountZero(l, m + 1);
    }
  }

  lemma {:induction false} TotalCountZero(l: seq<nat>, upTo: nat)
    requires |l| == 0
    ensures TotalCount(l, upTo) == 0
  {
    if upTo > 0 {
      TotalCountZero(l, upTo - 1);
    }
  }

  function Total(errs: seq<real>): real
  {
    if |errs| == 0 then 0.0 else Total(errs[..|errs| - 1]) + errs[|errs| - 1]
  }

  /** The bucket sums of `0 .. upTo-1`, added up. */
  function TotalSum(l: seq<nat>, errs: seq<real>, upTo: nat): real
    requires |l| == |errs|
  {
    if upTo == 0 then 0.0 else TotalSum(l, errs, upTo - 1) + SumFor(l, errs, upTo - 1)
  }

  lemma {:induction false} TotalSumStep(l: seq<nat>, errs: seq<real>, upTo: nat)
    requires |l| == |errs| && |l| > 0
    ensures TotalSum(l, errs, upTo) ==
      TotalSum(l[..|l| - 1], errs[..|errs| - 1], upTo) + (if l[|l| - 1] < upTo then errs[|errs| - 1] else 0.0)
  {
    if upTo > 0 {
      TotalSumStep(l, errs, upTo - 1);
    }
  }

  lemma {:induction false} TotalSumZero(l: seq<nat>, errs: seq<real>, upTo: nat)
    requires |l| == |errs| == 0
    ensures TotalSum(l, errs, upTo) == 0.0
  {
    if upTo > 0 {
      TotalSumZero(l, errs, upTo - 1);
    }
  }

  /** No error is lost or counted twice: the bucket sums of `0 .. m` add up
      to the sum of all per-row errors. */
  lemma {:induction false} SumsPartitionErrors(l: seq<nat>, errs: seq<real>, m: nat)
    requires |l| == |errs|
    requires forall i :: 0 <= i < |l| ==> l[i] <= m
    ensures TotalSum(l, errs, m + 1) == Total(errs)
  {
    if |l| > 0 {
      SumsPartitionErrors(l[..|l| - 1], errs[..|errs| - 1], m);
      TotalSumStep(l, errs, m + 1);
    } else {
      TotalSumZero(l, errs, m + 1);
    }
  }

  /** The per-bucket sums and counts, accumulated row by row. */
  method Accumulate(l: seq<nat>, errs: seq<real>, m: nat) returns (sums: seq<real>, counts: seq<nat>)
    requires |l| == |errs|
    requires forall i :: 0 <= i < |l| ==> l[i] <= m
    ensures |sums| == m + 1 && |counts| == m + 1
    ensures forall b :: 0 <= b <= m ==> sums[b] == SumFor(l, errs, b) && counts[b] == CountFor(l, b)
  {
    sums := seq(m + 1, _ => 0.0);
    counts := seq(m + 1, _ => 0);
    var i := 0;
    while i < |l|
      invariant 0 <= i <= |l|
      invariant |sums| == m + 1 && |counts| == m + 1
      invariant forall b :: 0 <= b <= m ==> sums[b] == SumFor(l[..i], errs[..i], b)
      invariant forall b :: 0 <= b <= m ==> counts[b] == CountFor(l[..i], b)
    {
      var ell := l[i];
      assert l[..i + 1][..i] == l[..i];
      assert errs[..i + 1][..i] == errs[..i];
      sums := sums[ell := sums[ell] + errs[i]];
      counts := counts[ell := counts[ell] + 1];
      i := i + 1;
    }
    assert l[..|l|] == l;
    assert errs[..|errs|] == errs;
  }

  /** The result: the angular momenta `0 .. max` and the mean error of each;
      an empty bucket divides zero by zero and yields NaN (`None`). */
  datatype RmseTable = RmseTable(l: seq<nat>, rmse: seq<Option<real>>)

  /** Why the computation raises: the energy rows disagree (the assertion),
      or there is no row to take the grid from. */
  datatype RmseError = GridMismatch | NoRows

  /** The per-row errors of the windowed data, with the per-row error
      measure (the root-mean-square difference of the two rows) as a
      parameter. */
  function RowErrors(w: Window, rowError: (Row, Row) -> real): (errs: seq<real>)
    requires |w.ae| == |w.ps|
    ensures |errs| == |w.ae|
    ensures forall i :: 0 <= i < |w.ae| ==> errs[i] == rowError(w.ae[i], w.ps[i])
  {
    seq(|w.ae|, i requires 0 <= i < |w.ae| => rowError(w.ae[i], w.ps[i]))
  }

  /** The log-derivative error per angular momentum: the grid check, the
      sort, the window, then for each `l` in `0 .. max` the mean of the
      errors of its rows. */
  method ComputeLogDerRmse(a: LogDerivativeArrays, eMin: real, eMax: real, rowError: (Row, Row) -> real)
    returns (r: Result<RmseTable, RmseError>)
    requires WellShaped(a)
    ensures !GridConsistent(a.e) ==> r == Failure(GridMismatch)
    ensures GridConsistent(a.e) && |a.e| == 0 ==> r == Failure(NoRows)
    ensures r.Success? <==> GridConsistent(a.e) && |a.e| > 0
    ensures r.Success? ==>
      var m := MaxL(a.l);
      var errs := RowErrors(SortAndWindow(a, eMin, eMax), rowError);
      && |r.value.l| == m + 1
      && |r.value.rmse| == m + 1
      && (forall b :: 0 <= b <= m ==> r.value.l[b] == b)
      && (forall b :: 0 <= b <= m ==>
            r.value.rmse[b] ==
              (if CountFor(a.l, b) == 0 then None else Some(SumFor(a.l, errs, b) / CountFor(a.l, b) as real)))
  {
    if !GridConsistent(a.e) {
      return Failure(GridMismatch);
    }
    if |a.e| == 0 {
      return Failure(NoRows);
    }
    var w := SortAndWindow(a, eMin, eMax);
    var errs := RowErrors(w, rowError);
    var m := MaxL(a.l);
    var sums, counts := Accumulate(a.l, errs, m);
    var rmse := seq(m + 1, b requires 0 <= b <= m =>
      if counts[b] == 0 then None else Some(sums[b] / counts[b] as real));
    r := Success(RmseTable(Range(m + 1), rmse));
  }
}
