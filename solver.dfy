/** The deterministic helpers around the MIP solver: the warm start of the
    `a` variables (best cell per instance), the warm start of the `b`
    variables (replicas per algorithm from the best-per-instance counts),
    and the decoding of a flat binary `b` solution into a core count per
    algorithm. */
module Solver {
  import opened Wrappers
  import opened Seqs
  import opened Datastructures

  // ---------------------------------------------------------------------
  // Row-major positions

  /** Positions in a row-major layout of width `c` compare like their
      (row, column) pairs, lexicographically. */
  lemma RowMajorOrder(j: nat, k: nat, j2: nat, k2: nat, c: nat)
    requires k < c && k2 < c
    ensures j * c + k < j2 * c + k2 <==> j < j2 || (j == j2 && k < k2)
  {
    if j < j2 {
      assert (j + 1) * c <= j2 * c;
    } else if j2 < j {
      assert (j2 + 1) * c <= j * c;
    }
  }

  lemma MulMonotone(a: nat, b: nat, c: nat)
    requires a <= b
    ensures a * c <= b * c
  {
  }
  lemma MulPositive(a: nat, b: nat)
    requires a > 0 && b > 0
    ensures a * b > 0
  {
    MulMonotone(1, a, b);
  }
  lemma ShareBound(count: int, m: nat)
    requires m > 0 && 0 <= count <= m
    ensures 0.0 <= count as real / m as real <= 1.0
  {
  }
  lemma ScaleBound(share: real, c: nat)
    requires 0.0 <= share <= 1.0
    ensures 0.0 <= share * c as real <= c as real
  {
  }
  lemma FloorBound(x: real, c: nat)
    requires 0.0 <= x <= c as real
    ensures 0 <= x.Floor <= c
  {
  }
  lemma DivThreads(f: nat, t: nat)
    requires t > 0
    ensures 0.0 <= f as real / t as real <= f as real
  {
    var q := f as real / t as real;
    assert q * t as real == f as real;
    assert t as real >= 1.0;
    assert q <= q * t as real;
  }
  lemma RoundBound(q: real, c: nat)
    requires 0.0 <= q <= c as real
    ensures 0 <= (q + 0.5).Floor <= c
  {
  }

  /** A position splits into its row and column. */
  lemma RowMajorSplit(pos: nat, c: nat)
    requires c > 0
    ensures pos == (pos / c) * c + pos % c && pos % c < c
  {
  }

  // ---------------------------------------------------------------------
  // get_a_start

  /** The warm-start cell of one instance: the first position (row-major,
      algorithm then core) holding the least value of its algorithms ×
      cores slice, as (algorithm, core); `None` for an empty slice, where
      the source's `unwrap` panics. */
  function AStartOf(slice: seq<seq<real>>, numCores: nat): (r: Option<(nat, nat)>)
    requires forall j :: 0 <= j < |slice| ==> |slice[j]| == numCores
    ensures r.None? <==> |slice| == 0 || numCores == 0
    ensures r.Some? ==> r.value.0 < |slice| && r.value.1 < numCores
    ensures r.Some? ==> forall j, k :: 0 <= j < |slice| && 0 <= k < numCores ==>
      slice[r.value.0][r.value.1] <= slice[j][k]
    ensures r.Some? ==> forall j, k ::
      0 <= j < |slice| && 0 <= k < numCores && (j < r.value.0 || (j == r.value.0 && k < r.value.1))
      ==> slice[r.value.0][r.value.1] < slice[j][k]
  {
    if |slice| == 0 || numCores == 0 then None
    else
      FlattenRectangularLength(slice, numCores);
      MulPositive(|slice|, numCores);
      var cell := RowMajorCell(ArgMinFirst(Flatten(slice)), numCores);
      CellOfFirstMin(slice, numCores, cell.0, cell.1);
      Some(cell)
  }

  /** `(pos / c, pos % c)`: the row and column of a row-major position. */
  function RowMajorCell(pos: nat, c: nat): (cell: (nat, nat))
    requires c > 0
    ensures cell.0 * c + cell.1 == pos && cell.1 < c
  {
    RowMajorSplit(pos, c);
    (pos / c, pos % c)
  }

  /** The row and column of the first least position of the flattened
      slice name a cell of the slice holding its first least value. */
  lemma CellOfFirstMin(slice: seq<seq<real>>, c: nat, j0: nat, k0: nat)
    requires forall j :: 0 <= j < |slice| ==> |slice[j]| == c
    requires |Flatten(slice)| == |slice| * c > 0 && k0 < c
    requires j0 * c + k0 == ArgMinFirst(Flatten(slice))
    ensures j0 < |slice|
    ensures forall j, k :: 0 <= j < |slice| && 0 <= k < c ==> slice[j0][k0] <= slice[j][k]
    ensures forall j, k ::
      0 <= j < |slice| && 0 <= k < c && (j < j0 || (j == j0 && k < k0)) ==> slice[j0][k0] < slice[j][k]
  {
    if j0 >= |slice| {
      MulMonotone(|slice|, j0, c);
      assert false;
    }
    MinCell(slice, c, j0, k0);
  }

  /** The cell at the first least position of the flattened slice
      compares with any other cell as the positions do. */
  lemma CellLe(slice: seq<seq<real>>, c: nat, j0: nat, k0: nat, j: nat, k: nat)
    requires forall j :: 0 <= j < |slice| ==> |slice[j]| == c
    requires j0 < |slice| && k0 < c && j < |slice| && k < c
    requires |Flatten(slice)| > 0 && ArgMinFirst(Flatten(slice)) == j0 * c + k0
    ensures slice[j0][k0] <= slice[j][k]
    ensures j < j0 || (j == j0 && k < k0) ==> slice[j0][k0] < slice[j][k]
  {
    var p0 := FlatCell(slice, c, j0, k0);
    var p := FlatCell(slice, c, j, k);
    RowMajorOrder(j, k, j0, k0, c);
    FirstMinAt(Flatten(slice), p0, p);
  }

  /** Cell (j, k) of a rectangular slice sits at position `p` of its
      flattening. */
  lemma FlatCell(slice: seq<seq<real>>, c: nat, j: nat, k: nat) returns (p: nat)
    requires forall j :: 0 <= j < |slice| ==> |slice[j]| == c
    requires j < |slice| && k < c
    ensures p == j * c + k && p < |Flatten(slice)| && Flatten(slice)[p] == slice[j][k]
  {
    FlattenRectangularAt(slice, c, j, k);
    p := j * c + k;
  }

  lemma FirstMinAt(flat: seq<real>, p0: nat, p: nat)
    requires |flat| > 0 && p0 == ArgMinFirst(flat) && p < |flat|
    ensures flat[p0] <= flat[p] && (p < p0 ==> flat[p0] < flat[p])
  {
  }

  /** The first least cell of the flattened slice, read as (row, column). */
  lemma MinCell(slice: seq<seq<real>>, c: nat, j0: nat, k0: nat)
    requires forall j :: 0 <= j < |slice| ==> |slice[j]| == c
    requires j0 < |slice| && k0 < c
    requires |Flatten(slice)| > 0 && ArgMinFirst(Flatten(slice)) == j0 * c + k0
    ensures forall j, k :: 0 <= j < |slice| && 0 <= k < c ==> slice[j0][k0] <= slice[j][k]
    ensures forall j, k ::
      0 <= j < |slice| && 0 <= k < c && (j < j0 || (j == j0 && k < k0)) ==> slice[j0][k0] < slice[j][k]
  {
    forall j, k | 0 <= j < |slice| && 0 <= k < c
      ensures slice[j0][k0] <= slice[j][k]
      ensures j < j0 || (j == j0 && k < k0) ==> slice[j0][k0] < slice[j][k]
    {
      CellLe(slice, c, j0, k0, j, k);
    }
  }

  /** Every instance has a non-empty slice of cells. */
  predicate EverySliceNonEmpty(stats: seq<seq<seq<real>>>, numCores: nat) {
    forall i :: 0 <= i < |stats| ==> |stats[i]| > 0 && numCores > 0
  }

  lemma EverySliceNonEmptyCons(stats: seq<seq<seq<real>>>, numCores: nat)
    requires stats != []
    ensures EverySliceNonEmpty(stats, numCores)
        <==> |stats[0]| > 0 && numCores > 0 && EverySliceNonEmpty(stats[1..], numCores)
  {
    if |stats[0]| > 0 && numCores > 0 && EverySliceNonEmpty(stats[1..], numCores) {
      forall i | 0 <= i < |stats| ensures |stats[i]| > 0 {
        if i > 0 { assert stats[i] == stats[1..][i - 1]; }
      }
    }
  }

  /** `get_a_start`: for every instance `i`, the triple (i, algorithm,
      core) of its warm-start cell; the first instance with an empty slice
      makes it fail. */
  function AStart(stats: seq<seq<seq<real>>>, numCores: nat): (r: Result<seq<(nat, nat, nat)>, string>)
    requires forall i, j :: 0 <= i < |stats| && 0 <= j < |stats[i]| ==> |stats[i][j]| == numCores
    ensures r.Ok? <==> EverySliceNonEmpty(stats, numCores)
    ensures r.Ok? ==> |r.value| == |stats| && forall i :: 0 <= i < |stats| ==>
      && r.value[i].0 == i
      && AStartOf(stats[i], numCores) == Some((r.value[i].1, r.value[i].2))
  {
    if stats == [] then Ok([])
    else
      var first := AStartOf(stats[0], numCores);
      EverySliceNonEmptyCons(stats, numCores);
      if first.None? then Err("called `Option::unwrap()` on a `None` value")
      else
        var rest :- AStart(stats[1..], numCores);
        Ok([(0, first.value.0, first.value.1)] + seq(|rest|, i requires 0 <= i < |rest| => (rest[i].0 + 1, rest[i].1, rest[i].2)))
  }

  /** Every warm-start triple indexes a cell of the tensor, and that cell
      holds the least value of its instance, at its first occurrence. */
  lemma AStartInRange(stats: seq<seq<seq<real>>>, numCores: nat, i: nat)
    requires forall i, j :: 0 <= i < |stats| && 0 <= j < |stats[i]| ==> |stats[i][j]| == numCores
    requires AStart(stats, numCores).Ok? && i < |stats|
    ensures var t := AStart(stats, numCores).value[i];
      && t.0 == i && t.1 < |stats[i]| && t.2 < numCores
      && forall j, k :: 0 <= j < |stats[i]| && 0 <= k < numCores ==> stats[i][t.1][t.2] <= stats[i][j][k]
  {
  }

  /** The first instance of the source's test: its least cell is (0, 0). */
  lemma AStartOfExample0()
    ensures AStartOf([[1.0, 2.0], [3.0, 4.0]], 2) == Some((0, 0))
  {
    var s0: seq<seq<real>> := [[1.0, 2.0], [3.0, 4.0]];
    var f0 := Flatten(s0);
    assert f0 == [1.0, 2.0, 3.0, 4.0] by {
      assert Flatten(s0[1..][1..]) == [];
    }
    assert ArgMinFirst(f0) == 0;
  }

  /** The second instance of the source's test: its least cell is (1, 0). */
  lemma AStartOfExample1()
    ensures AStartOf([[7.0, 6.0], [5.0, 8.0]], 2) == Some((1, 0))
  {
    var s1: seq<seq<real>> := [[7.0, 6.0], [5.0, 8.0]];
    var f1 := Flatten(s1);
    assert f1 == [7.0, 6.0, 5.0, 8.0] by {
      assert Flatten(s1[1..][1..]) == [];
    }
    var p1 := ArgMinFirst(f1);
    assert f1[p1] <= f1[2];
    assert p1 == 2;
  }

  /** The case the source's own test checks: two instances, two
      algorithms, two cores. */
  lemma AStartExample()
    ensures AStart([[[1.0, 2.0], [3.0, 4.0]], [[7.0, 6.0], [5.0, 8.0]]], 2) == Ok([(0, 0, 0), (1, 1, 0)])
  {
    var s0: seq<seq<real>> := [[1.0, 2.0], [3.0, 4.0]];
    var s1: seq<seq<real>> := [[7.0, 6.0], [5.0, 8.0]];
    AStartOfExample0();
    AStartOfExample1();
    var stats := [s0, s1];
    var r := AStart(stats, 2);
    assert r.Ok?;
    assert r.value[0] == (0, 0, 0) && r.value[1] == (1, 1, 0);
    assert r.value == [(0, 0, 0), (1, 1, 0)];
  }

  // ---------------------------------------------------------------------
  // get_b_start

  /** `f64::round`: to the nearest integer, halves away from zero. */
  function Round(x: real): int {
    if x >= 0.0 then (x + 0.5).Floor else -((-x + 0.5).Floor)
  }

  /** The share of the instances an algorithm is best on. */
  function Share(count: int, m: nat): real
    requires m > 0
  {
    count as real / m as real
  }

  /** That share of the cores, floored. */
  function CoreShare(count: int, m: nat, numCores: nat): int
    requires m > 0
  {
    (Share(count, m) * numCores as real).Floor
  }

  /** The warm-start replica count of one algorithm: its share of the
      cores divided by its thread count, rounded. */
  function BStartValue(count: int, threads: nat, m: nat, numCores: nat): int
    requires m > 0 && threads > 0
  {
    Round(CoreShare(count, m, numCores) as real / threads as real)
  }

  lemma CoreShareBounds(count: int, m: nat, numCores: nat)
    requires m > 0 && 0 <= count <= m
    ensures 0 <= CoreShare(count, m, numCores) <= numCores
    ensures count == 0 ==> CoreShare(count, m, numCores) == 0
  {
    ShareBound(count, m);
    ScaleBound(Share(count, m), numCores);
    FloorBound(Share(count, m) * numCores as real, numCores);
    if count == 0 {
      assert Share(count, m) == 0.0;
    }
  }

  /** A count between zero and the number of instances gives a value
      between zero and the number of cores; a count of zero gives zero. */
  lemma BStartValueBounds(count: int, threads: nat, m: nat, numCores: nat)
    requires m > 0 && threads > 0 && 0 <= count <= m
    ensures 0 <= BStartValue(count, threads, m, numCores) <= numCores
    ensures count == 0 ==> BStartValue(count, threads, m, numCores) == 0
  {
    CoreShareBounds(count, m, numCores);
    var f := CoreShare(count, m, numCores);
    DivThreads(f, threads);
    RoundBound(f as real / threads as real, numCores);
    if count == 0 {
      assert f as real / threads as real == 0.0;
    }
  }

  /** `get_b_start`: one value per (count, algorithm) pair, in order. */
  function BStart(counts: seq<int>, algorithms: seq<Algorithm>, m: nat, numCores: nat): (r: seq<int>)
    requires m > 0 && forall a :: a in algorithms ==> a.threads > 0
    ensures |r| == MinNat(|counts|, |algorithms|)
    ensures forall j :: 0 <= j < |r| ==> r[j] == BStartValue(counts[j], algorithms[j].threads, m, numCores)
  {
    var len := MinNat(|counts|, |algorithms|);
    seq(len, j requires 0 <= j < len => BStartValue(counts[j], algorithms[j].threads, m, numCores))
  }

  /** With counts in `0..=m`, every value is a valid replica count: zero
      (no warm start) or the index of a `b` column plus one. */
  lemma BStartInRange(counts: seq<int>, algorithms: seq<Algorithm>, m: nat, numCores: nat)
    requires m > 0 && forall a :: a in algorithms ==> a.threads > 0
    requires forall j :: 0 <= j < |counts| ==> 0 <= counts[j] <= m
    ensures forall j :: 0 <= j < |BStart(counts, algorithms, m, numCores)| ==>
      0 <= BStart(counts, algorithms, m, numCores)[j] <= numCores
  {
    var r := BStart(counts, algorithms, m, numCores);
    forall j | 0 <= j < |r| ensures 0 <= r[j] <= numCores {
      assert algorithms[j] in algorithms;
      BStartValueBounds(counts[j], algorithms[j].threads, m, numCores);
    }
  }

  // ---------------------------------------------------------------------
  // The warm start of `b` (the loop of `solve` over `get_b_start`)

  /** The `b` row a replica count `v` stands for: all zero, with a one in
      column `v - 1` when `v > 0`. */
  function StartRow(v: nat, numCores: nat): (row: seq<real>)
    ensures |row| == numCores
  {
    seq(numCores, k requires 0 <= k < numCores => if k == v - 1 then 1.0 else 0.0)
  }

  /** Sets the start value 1 at `b[(i, v - 1)]` for every non-zero value
      `v` of algorithm `i`; every other cell keeps its value. */
  method WarmStartB(b: array2<real>, values: seq<int>)
    requires |values| <= b.Length0
    requires forall i :: 0 <= i < |values| ==> 0 <= values[i] <= b.Length1
    modifies b
    ensures forall i, k :: 0 <= i < b.Length0 && 0 <= k < b.Length1 ==>
      b[i, k] == (if i < |values| && values[i] > 0 && k == values[i] - 1 then 1.0 else old(b[i, k]))
  {
    var i := 0;
    while i < |values|
      invariant 0 <= i <= |values|
      invariant forall i2, k :: 0 <= i2 < b.Length0 && 0 <= k < b.Length1 ==>
        b[i2, k] == (if i2 < i && values[i2] > 0 && k == values[i2] - 1 then 1.0 else old(b[i2, k]))
    {
      if values[i] != 0 {
        b[i, values[i] - 1] := 1.0;
      }
      i := i + 1;
    }
  }

  /** Starting from zeros, row `i` of the warm-started `b` is the row that
      stands for value `i`. */
  lemma WarmStartRows(before: seq<real>, after: seq<real>, v: nat, numCores: nat)
    requires v <= numCores && |before| == numCores && |after| == numCores
    requires forall k :: 0 <= k < numCores ==> before[k] == 0.0
    requires forall k :: 0 <= k < numCores ==> after[k] == (if v > 0 && k == v - 1 then 1.0 else before[k])
    ensures after == StartRow(v, numCores)
  {
  }

  // ---------------------------------------------------------------------
  // postprocess_solution

  /** Σ_k row[k]·(k+1): the core count a row of `b` encodes. */
  function Weighted(row: seq<real>): real {
    if row == [] then 0.0 else Weighted(row[..|row| - 1]) + row[|row| - 1] * (|row| as real)
  }

  /** The slice of the flat solution holding algorithm `j`'s row. */
  function SolutionRow(solution: seq<real>, j: nat, numCores: nat): (row: seq<real>)
    requires j * numCores + numCores <= |solution|
    ensures |row| == numCores
  {
    solution[j * numCores..j * numCores + numCores]
  }

  /** The weight of row `j`, or zero when the row does not fit. */
  function RowWeight(solution: seq<real>, j: nat, numCores: nat): real {
    if j * numCores + numCores <= |solution| then Weighted(SolutionRow(solution, j, numCores)) else 0.0
  }

  /** Row `j < n` of an `n`-row layout of width `c` ends within it. */
  lemma RowWithin(j: nat, n: nat, c: nat)
    requires j < n
    ensures j * c + c <= n * c
  {
    MulMonotone(j + 1, n, c);
  }

  /** One more column adds its value times its one-based index. */
  lemma WeightedSnoc(row: seq<real>, k: nat)
    requires k < |row|
    ensures Weighted(row[..k + 1]) == Weighted(row[..k]) + row[k] * ((k + 1) as real)
  {
    assert row[..k + 1][..k] == row[..k];
  }

  /** A row of zeros encodes nothing. */
  lemma {:induction false} WeightedZero(row: seq<real>)
    requires forall k :: 0 <= k < |row| ==> row[k] == 0.0
    ensures Weighted(row) == 0.0
  {
    if row != [] {
      WeightedZero(row[..|row| - 1]);
    }
  }

  /** A row with a single one, in column `c`, encodes `c + 1`. */
  lemma {:induction false} WeightedOneHot(row: seq<real>, c: nat)
    requires c < |row| && row[c] == 1.0
    requires forall k :: 0 <= k < |row| && k != c ==> row[k] == 0.0
    ensures Weighted(row) == (c + 1) as real
  {
    var p := row[..|row| - 1];
    if c == |row| - 1 {
      WeightedZero(p);
    } else {
      WeightedOneHot(p, c);
    }
  }

  /** A binary row with at most one one (constraint c2) encodes zero or
      the one's column plus one. */
  lemma WeightedBinaryRow(row: seq<real>)
    requires forall k :: 0 <= k < |row| ==> row[k] == 0.0 || row[k] == 1.0
    requires forall k, l :: 0 <= k < l < |row| ==> row[k] == 0.0 || row[l] == 0.0
    ensures Weighted(row) == 0.0 || exists c :: 0 <= c < |row| && row[c] == 1.0 && Weighted(row) == (c + 1) as real
  {
    if exists c :: 0 <= c < |row| && row[c] == 1.0 {
      var c :| 0 <= c < |row| && row[c] == 1.0;
      WeightedOneHot(row, c);
    } else {
      WeightedZero(row);
    }
  }

  /** Decoding the warm start gives back the replica count. */
  lemma StartRowDecodes(v: nat, numCores: nat)
    requires v <= numCores
    ensures Weighted(StartRow(v, numCores)) == v as real
  {
    var row := StartRow(v, numCores);
    if v == 0 {
      WeightedZero(row);
    } else {
      WeightedOneHot(row, v - 1);
    }
  }

  /** The inner loop of `postprocess_solution`: adds
      `solution[base + k] * (k + 1)` for every core `k` to `selection[j]`,
      leaving the other entries alone. */
  method AccumulateRow(selection: array<real>, j: nat, solution: seq<real>, numCores: nat)
    requires j < selection.Length && selection[j] == 0.0
    requires j * numCores + numCores <= |solution|
    modifies selection
    ensures selection[j] == Weighted(SolutionRow(solution, j, numCores))
    ensures forall j2 :: 0 <= j2 < selection.Length && j2 != j ==> selection[j2] == old(selection[j2])
  {
    var base := j * numCores;
    ghost var row := SolutionRow(solution, j, numCores);
    for k := 0 to numCores
      invariant selection[j] == Weighted(row[..k])
      invariant forall j2 :: 0 <= j2 < selection.Length && j2 != j ==> selection[j2] == old(selection[j2])
    {
      WeightedSnoc(row, k);
      assert row[k] == solution[base + k];
      selection[j] := selection[j] + solution[base + k] * ((k + 1) as real);
    }
    assert row[..numCores] == row;
  }

  /** `postprocess_solution`: for each algorithm `j < n`, accumulates
      `solution[j * numCores + k] * (k + 1)` over the cores, then pairs the
      algorithms in order with the results. */
  method PostprocessSolution(solution: seq<real>, n: nat, numCores: nat, algorithms: seq<Algorithm>)
    returns (assignments: seq<(Algorithm, real)>)
    requires n * numCores <= |solution|
    ensures |assignments| == MinNat(n, |algorithms|)
    ensures forall j :: 0 <= j < |assignments| ==>
      j * numCores + numCores <= |solution| &&
      assignments[j] == (algorithms[j], Weighted(SolutionRow(solution, j, numCores)))
  {
    var selection := new real[n](_ => 0.0);
    for j := 0 to n
      invariant forall j2 :: 0 <= j2 < j ==> selection[j2] == RowWeight(solution, j2, numCores)
      invariant forall j2 :: j <= j2 < n ==> selection[j2] == 0.0
    {
      RowWithin(j, n, numCores);
      AccumulateRow(selection, j, solution, numCores);
    }
    var len := MinNat(n, |algorithms|);
    var values := selection[..];
    assignments := seq(len, j requires 0 <= j < len => (algorithms[j], values[j]));
    forall j | 0 <= j < len
      ensures j * numCores + numCores <= |solution|
      ensures assignments[j] == (algorithms[j], Weighted(SolutionRow(solution, j, numCores)))
    {
      RowWithin(j, n, numCores);
    }
  }
}
