/** Building the solver input from benchmark CSV files (`Data::new`):
    reading and normalising the files, the validity and slowdown filters,
    the per-instance and per-algorithm summaries, and the `e_min` tensor. */
module CsvParser {
  import opened Wrappers
  import opened Seqs
  import opened Text
  import opened Datastructures
  import opened CsvUtils
  import Solver

  /** `f64::EPSILON`, 2^-52. */
  const EPSILON: real := 0.0000000000000002220446049250313080847263336181640625

  function Abs(x: real): real {
    if x < 0.0 then -x else x
  }

  /** A quality within `EPSILON` of zero is read as 1.0 (a cut of zero
      would break the ratios); any other quality is kept. */
  function RemapQuality(q: real): (r: real)
    ensures Abs(r) >= EPSILON
    ensures Abs(q) > EPSILON ==> r == q
    ensures Abs(q) <= EPSILON ==> r == 1.0
  {
    if Abs(q) <= EPSILON then 1.0 else q
  }

  /** Remapping a remapped quality changes nothing. */
  lemma RemapQualityIdempotent(q: real)
    ensures RemapQuality(RemapQuality(q)) == RemapQuality(q)
  {
  }

  // ---------------------------------------------------------------------
  // Column lists

  /** The columns read from a benchmark file (`in_fields`). */
  const KAHYPAR_COLUMNS: seq<string> := ["algorithm", "num_threads", "graph", "k", "epsilon",
    "imbalance", "km1", "totalPartitionTime", "failed", "timeout"]

  /** The columns read from a file that has no thread count
      (`fixed_in_fields`). */
  const FIXED_COLUMNS: seq<string> := ["algorithm", "graph", "k", "epsilon",
    "imbalance", "km1", "totalPartitionTime", "failed", "timeout"]

  /** The column list with `num_threads` dropped. */
  function FixedFields(fields: seq<string>): seq<string> {
    Filter(fields, (c: string) => c != "num_threads")
  }

  /** `Vec::retain(|s| s != drop)`: moves the kept entries to the front, in
      order, and returns how many there are (the new length). */
  method Retain(a: array<string>, drop: string) returns (len: nat)
    modifies a
    ensures len <= a.Length
    ensures a[..len] == Filter(old(a[..]), (c: string) => c != drop)
  {
    ghost var orig := a[..];
    ghost var keep := (c: string) => c != drop;
    ghost var kept: seq<string> := [];
    len := 0;
    var i := 0;
    while i < a.Length
      invariant 0 <= len <= i <= a.Length
      invariant kept == Filter(orig[..i], keep) && |kept| == len
      invariant forall m :: 0 <= m < len ==> a[m] == kept[m]
      invariant forall m :: i <= m < a.Length ==> a[m] == orig[m]
    {
      assert Filter(orig[..i + 1], keep) == kept + (if keep(orig[i]) then [orig[i]] else []) by {
        PrefixSnoc(orig, i);
        FilterSnoc(orig[..i], orig[i], keep);
      }
      if a[i] != drop {
        a[len] := a[i];
        kept := kept + [orig[i]];
        len := len + 1;
      }
      i := i + 1;
    }
    assert orig[..a.Length] == orig;
    assert a[..len] == kept;
  }

  lemma ColumnsShareTail()
    ensures |KAHYPAR_COLUMNS| == 10 && KAHYPAR_COLUMNS[0] == FIXED_COLUMNS[0]
    ensures KAHYPAR_COLUMNS[2..] == FIXED_COLUMNS[1..]
  {
  }

  lemma FixedColumnsNoThreads()
    ensures forall i :: 0 <= i < |FIXED_COLUMNS| ==> FIXED_COLUMNS[i] != "num_threads"
  {
    assert |"num_threads"| == 11;
    assert forall i :: 0 <= i < |FIXED_COLUMNS| ==> |FIXED_COLUMNS[i]| != 11;
  }

  /** Dropping `num_threads` from the full column list leaves the fallback
      list: all the other columns, in order. */
  lemma FixedKahyparColumns()
    ensures FixedFields(KAHYPAR_COLUMNS) == FIXED_COLUMNS
  {
    ColumnsShareTail();
    FixedColumnsNoThreads();
    FilterSecond(KAHYPAR_COLUMNS, FIXED_COLUMNS, (c: string) => c != "num_threads");
  }

  /** A header with all the columns has the fallback columns too. */
  lemma FixedColumnsSubset()
    ensures forall c :: c in FIXED_COLUMNS ==> c in KAHYPAR_COLUMNS
  {
    ColumnsShareTail();
    forall c | c in FIXED_COLUMNS ensures c in KAHYPAR_COLUMNS {
      var i :| 0 <= i < |FIXED_COLUMNS| && FIXED_COLUMNS[i] == c;
      if i > 0 {
        assert KAHYPAR_COLUMNS[i + 1] == FIXED_COLUMNS[1..][i - 1];
      } else {
        assert KAHYPAR_COLUMNS[0] == c;
      }
    }
  }

  // ---------------------------------------------------------------------
  // preprocess_df

  /** A record of a benchmark file, by its column names. */
  datatype RawRow = RawRow(
    algorithm: string,
    numThreads: int,
    graph: string,
    k: int,
    epsilon: real,
    imbalance: real,
    km1: real,
    totalPartitionTime: real,
    failed: string,
    timeout: string)

  /** A benchmark file: absent, or its header and records (a record's
      `numThreads` is meaningless when the header lacks the column). */
  datatype CsvFile = Missing | Csv(header: seq<string>, records: seq<RawRow>)

  datatype DataError =
    | FileNotFound        // `CsvReader::from_path` fails: panic
    | MissingColumns      // the fallback read fails as well: `unwrap` panics
    | NoInputFiles        // `concat` of no frames: `expect` panics
    | GraphsUnreadable    // the graphs file exists but does not parse
    | NoValidRows         // exit with `DATAERR`
    | InstancesUnsorted   // assertion on the instance list
    | AlgorithmsUnsorted  // assertion on the algorithm list
    | NearZeroBest        // assertion on `best_per_instance`
    | SamplingFailed      // `stats_by_sampling` with no sample size
    | HeightMismatch      // assertion on the completed table's height

  predicate HasColumns(header: seq<string>, fields: seq<string>) {
    forall c :: c in fields ==> c in header
  }

  /** A record renamed to the target columns, with the instance name
      repaired and the quality remapped. */
  function ToRow(r: RawRow, threads: int): Row {
    Row(r.algorithm, threads, FixInstanceName(r.graph), r.k, r.epsilon, r.imbalance,
      RemapQuality(r.km1), r.totalPartitionTime, r.failed, r.timeout)
  }

  /** The records of one file as table rows; `withThreads` says whether
      the file's thread counts are used or every run counts as one thread. */
  function Normalise(records: seq<RawRow>, withThreads: bool): (rows: seq<Row>)
    ensures |rows| == |records|
    ensures forall i :: 0 <= i < |rows| ==> rows[i] == ToRow(records[i], if withThreads then records[i].numThreads else 1)
  {
    if withThreads then Map(records, (x: RawRow) => ToRow(x, x.numThreads))
    else Map(records, (x: RawRow) => ToRow(x, 1))
  }

  /** One file of `preprocess_df`: read with all columns; failing that,
      re-read with the fallback columns and set the thread count to 1;
      failing that too, the `unwrap` panics. */
  function ReadFile(f: CsvFile): (r: Result<seq<Row>, DataError>)
    ensures f.Missing? ==> r == Err(FileNotFound)
    ensures f.Csv? ==> (r.Ok? <==> HasColumns(f.header, FIXED_COLUMNS))
    ensures r.Ok? ==> r.value == Normalise(f.records, HasColumns(f.header, KAHYPAR_COLUMNS))
  {
    match f
    case Missing => Err(FileNotFound)
    case Csv(header, records) =>
      if HasColumns(header, KAHYPAR_COLUMNS) then
        FixedColumnsSubset();
        Ok(Normalise(records, true))
      else if HasColumns(header, FIXED_COLUMNS) then Ok(Normalise(records, false))
      else Err(MissingColumns)
  }

  /** Every row read satisfies what the normalisation promises: a quality
      away from zero and a repaired instance name. */
  predicate Normalised(x: Row) {
    Abs(x.quality) >= EPSILON && !EndsWith(x.instance, "scotch")
  }

  lemma ReadFileNormalised(f: CsvFile)
    requires ReadFile(f).Ok?
    ensures forall x :: x in ReadFile(f).value ==> Normalised(x)
  {
    var rows := ReadFile(f).value;
    forall x | x in rows ensures Normalised(x) {
      var i :| 0 <= i < |rows| && rows[i] == x;
    }
  }

  /** The files read in order; the first failure is the one reported. */
  function ReadAll(files: seq<CsvFile>): (r: Result<seq<Row>, DataError>)
    ensures r.Ok? <==> forall i :: 0 <= i < |files| ==> ReadFile(files[i]).Ok?
    ensures r.Ok? ==> forall x :: x in r.value ==> Normalised(x)
  {
    if files == [] then Ok([])
    else
      var head :- ReadFile(files[0]);
      var tail :- ReadAll(files[1..]);
      assert forall i :: 1 <= i < |files| ==> files[i] == files[1..][i - 1];
      ReadFileNormalised(files[0]);
      Ok(head + tail)
  }

  /** `preprocess_df`: every file read and normalised, the results
      concatenated; with no file at all the concatenation fails. */
  function Preprocess(files: seq<CsvFile>): (r: Result<seq<Row>, DataError>)
    ensures files == [] ==> r == Err(NoInputFiles)
    ensures files != [] ==> r == ReadAll(files)
    ensures r.Ok? ==> forall x :: x in r.value ==> Normalised(x)
  {
    if files == [] then Err(NoInputFiles) else ReadAll(files)
  }

  // ---------------------------------------------------------------------
  // Filters

  /** A run that counts: feasible, neither failed nor timed out, and using
      no more threads than there are cores. */
  predicate IsValid(r: Row, numCores: nat) {
    r.feasibilityScore <= r.threshold && r.failed == "no" && r.timeout == "no" && r.threads <= numCores
  }

  /** The validity filter of `Data::new`: exactly the valid rows, in
      order. */
  function ValidRows(rows: seq<Row>, numCores: nat): (r: seq<Row>)
    ensures multiset(r) <= multiset(rows)
    ensures forall x :: x in r <==> x in rows && IsValid(x, numCores)
    ensures SortedBy(rows, RowLe) ==> SortedBy(r, RowLe)
  {
    var r := Filter(rows, (x: Row) => IsValid(x, numCores));
    FilterMultiset(rows, (x: Row) => IsValid(x, numCores));
    assert SortedBy(rows, RowLe) ==> SortedBy(r, RowLe) by {
      if SortedBy(rows, RowLe) {
        FilterSorted(rows, (x: Row) => IsValid(x, numCores), RowLe);
      }
    }
    r
  }

  /** The table after reading, the desired-instance join and sorting. */
  function Table(files: seq<CsvFile>, graphs: GraphsCsv, cfg: ConfigValues): (r: Result<seq<Row>, DataError>)
    ensures r.Ok? ==> SortedBy(r.value, RowLe)
    ensures r.Ok? ==> forall x :: x in r.value ==> Abs(x.quality) >= EPSILON
  {
    var rows :- Preprocess(files);
    match FilterDesiredInstances(rows, graphs, cfg.ks, cfg.thresholds)
    case Err(_) => Err(GraphsUnreadable)
    case Ok(desired) =>
      var sorted := SortRows(desired);
      assert forall x :: x in sorted ==> x in rows by {
        forall x | x in sorted ensures x in rows {
          SortMember(desired, RowLe, x);
        }
      }
      Ok(sorted)
  }

  /** The valid rows of the fast-enough algorithms, sorted. */
  function ValidTable(table: seq<Row>, numCores: nat, slowdownRatio: real, ln: real -> real): (r: seq<Row>)
    ensures SortedBy(r, RowLe)
    ensures forall x :: x in r ==> x in table && IsValid(x, numCores)
  {
    var valid := ValidRows(table, numCores);
    var fast := FilterBySlowdown(valid, slowdownRatio, ln);
    var r := SortRows(fast);
    assert forall x :: x in r ==> x in fast by {
      forall x | x in r ensures x in fast {
        SortMember(fast, RowLe, x);
      }
    }
    r
  }

  // ---------------------------------------------------------------------
  // best_per_instance

  /** `m` is the least quality of instance group `g`: the quality of one of
      its rows, and at most the quality of each. */
  ghost predicate IsGroupMin(rows: seq<Row>, g: InstanceKey, m: real) {
    && (exists x :: x in rows && IKey(x) == g && x.quality == m)
    && (forall x :: x in rows && IKey(x) == g ==> m <= x.quality)
  }

  /** The `min` aggregation over one instance group. */
  function GroupMinQuality(rows: seq<Row>, g: InstanceKey): (m: real)
    requires g in InstanceKeys(rows)
    ensures IsGroupMin(rows, g, m)
  {
    var grp := GroupOf(rows, g);
    QualityMin(grp);
    Min(Qualities(grp))
  }

  /** The least quality of a list of rows is the quality of one of them,
      and at most the quality of each. */
  lemma QualityMin(grp: seq<Row>)
    requires |grp| > 0
    ensures exists x :: x in grp && x.quality == Min(Qualities(grp))
    ensures forall x :: x in grp ==> Min(Qualities(grp)) <= x.quality
  {
    var qs := Qualities(grp);
    var m := Min(qs);
    var j :| 0 <= j < |qs| && qs[j] == m;
    assert grp[j] in grp;
    forall x | x in grp ensures m <= x.quality {
      var k :| 0 <= k < |grp| && grp[k] == x;
      assert qs[k] in qs;
    }
  }

  /** `best_per_instance`: the least quality of every instance group, in
      order of first appearance. */
  function BestPerInstance(rows: seq<Row>): (r: seq<real>)
    ensures |r| == |InstanceKeys(rows)|
    ensures forall i :: 0 <= i < |r| ==> IsGroupMin(rows, InstanceKeys(rows)[i], r[i])
  {
    var keys := InstanceKeys(rows);
    seq(|keys|, i requires 0 <= i < |keys| => GroupMinQuality(rows, keys[i]))
  }

  /** The best quality is the quality of the row whose time is reported as
      the best time. */
  lemma BestQualityMatchesBestTime(rows: seq<Row>, i: nat)
    requires i < |InstanceKeys(rows)|
    ensures BestPerInstance(rows)[i] == BestRow(rows, InstanceKeys(rows)[i]).quality
  {
    var g := InstanceKeys(rows)[i];
    var b := BestRow(rows, g);
    var m := BestPerInstance(rows)[i];
    var x :| x in rows && IKey(x) == g && x.quality == m;
  }

  // ---------------------------------------------------------------------
  // The instance and algorithm lists

  lemma IKeysSorted(rows: seq<Row>)
    requires SortedBy(rows, RowLe)
    ensures SortedBy(Map(rows, IKey), InstanceKeyLe)
  {
    InstanceKeyLeTotalOrder();
  }

  /** On keys whose `k` fits a `u32`, the conversion to `Instance` keeps the
      order. */
  lemma ToInstanceMonotone(a: InstanceKey, b: InstanceKey)
    requires 0 <= a.k < U32_LIMIT && 0 <= b.k < U32_LIMIT
    requires InstanceKeyLe(a, b)
    ensures InstanceLe(ToInstance(a), ToInstance(b))
  {
  }

  /** The instance list of a sorted table whose `k` values fit a `u32` is
      sorted: the assertion on it holds. */
  lemma InstancesSorted(rows: seq<Row>)
    requires SortedBy(rows, RowLe) && KsFitU32(rows)
    ensures AdjacentSorted(ExtractInstances(rows), InstanceLe)
  {
    var d := InstanceKeys(rows);
    IKeysSorted(rows);
    DistinctSorted(Map(rows, IKey), InstanceKeyLe);
    var r := ExtractInstances(rows);
    assert r == Map(d, ToInstance);
    forall i | 0 < i < |r| ensures InstanceLe(r[i - 1], r[i]) {
      NeighbourInstances(rows, d, i);
    }
  }

  /** Neighbouring keys of a sorted table give ordered instances. */
  lemma NeighbourInstances(rows: seq<Row>, d: seq<InstanceKey>, i: nat)
    requires d == InstanceKeys(rows) && 0 < i < |d| && KsFitU32(rows)
    requires SortedBy(d, InstanceKeyLe)
    ensures InstanceLe(ToInstance(d[i - 1]), ToInstance(d[i]))
  {
    assert d[i - 1] in d && d[i] in d;
    var a :| 0 <= a < |rows| && IKey(rows[a]) == d[i - 1];
    var b :| 0 <= b < |rows| && IKey(rows[b]) == d[i];
    assert rows[a] in rows && rows[b] in rows;
    ToInstanceMonotone(d[i - 1], d[i]);
  }

  /** The algorithm list as `Data::new` builds it: the distinct algorithms
      in order of first appearance in the table. */
  function AlgorithmListAsWritten(rows: seq<Row>): (r: seq<Algorithm>)
    ensures |r| == |AlgorithmKeys(rows)|
    ensures forall i :: 0 <= i < |r| ==> r[i] == ToAlgorithm(AlgorithmKeys(rows)[i])
  {
    ExtractAlgorithms(rows)
  }

  /** Runs of one instance on two algorithms: the table is sorted, the
      first instance only has a run of the algorithm that sorts later. */
  const COUNTEREXAMPLE: seq<Row> := [
    Row("y", 1, "a", 2, 0.03, 0.0, 10.0, 1.0, "no", "no"),
    Row("x", 1, "b", 2, 0.03, 0.0, 10.0, 1.0, "no", "no"),
    Row("y", 1, "b", 2, 0.03, 0.0, 10.0, 1.0, "no", "no")]

  lemma CounterexampleSorted()
    ensures SortedBy(COUNTEREXAMPLE, RowLe)
  {
    assert StrLe("a", "b");
    assert StrLe("x", "y");
  }

  lemma CounterexampleValid()
    ensures forall x :: x in COUNTEREXAMPLE ==> IsValid(x, 1)
  {
  }

  /** The first-appearance list of the counterexample is [y, x]. */
  lemma CounterexampleList()
    ensures !AdjacentSorted(AlgorithmListAsWritten(COUNTEREXAMPLE), AlgorithmLe)
  {
    var rows := COUNTEREXAMPLE;
    assert !StrLe("y", "x");
    var keys := Map(rows, AKey);
    assert keys == [AKey(rows[0]), AKey(rows[1]), AKey(rows[2])];
    var d := AlgorithmKeys(rows);
    assert AKey(rows[0]) in d && AKey(rows[1]) in d;
    assert |d| == 2;
    DistinctFirstOccurrenceOrder(keys, 0, 1);
    assert d[0] == AKey(rows[0]) && d[1] == AKey(rows[1]);
  }

  /** On a sorted table where an earlier instance lacks an algorithm that
      sorts first, the first-appearance algorithm list is not sorted, so the
      assertion after `extract_algorithm_columns` fails. */
  lemma AlgorithmListAsWrittenUnsorted()
    ensures SortedBy(COUNTEREXAMPLE, RowLe)
    ensures forall x :: x in COUNTEREXAMPLE ==> IsValid(x, 1)
    ensures !AdjacentSorted(AlgorithmListAsWritten(COUNTEREXAMPLE), AlgorithmLe)
  {
    CounterexampleSorted();
    CounterexampleValid();
    CounterexampleList();
  }

  /** The algorithm list the rest of the model uses: the distinct
      algorithms, sorted. */
  function AlgorithmList(rows: seq<Row>): (r: seq<Algorithm>)
    ensures AdjacentSorted(r, AlgorithmLe)
    ensures multiset(r) == multiset(AlgorithmListAsWritten(rows))
  {
    var written := AlgorithmListAsWritten(rows);
    AlgorithmLeTotalOrder();
    SortSorted(written, AlgorithmLe);
    AdjacentSortedIsSorted(Sort(written, AlgorithmLe), AlgorithmLe);
    Sort(written, AlgorithmLe)
  }

  /** Each algorithm of the table occurs in the list, once when thread
      counts fit a `u32`. */
  lemma AlgorithmListMembers(rows: seq<Row>)
    ensures |AlgorithmList(rows)| == |AlgorithmKeys(rows)|
    ensures forall x :: x in rows ==> ToAlgorithm(AKey(x)) in AlgorithmList(rows)
    ensures ThreadsFitU32(rows) ==> NoDup(AlgorithmList(rows))
  {
    var written := AlgorithmListAsWritten(rows);
    var r := AlgorithmList(rows);
    forall x | x in rows ensures ToAlgorithm(AKey(x)) in r {
      var i :| 0 <= i < |rows| && rows[i] == x;
      assert ToAlgorithm(AKey(x)) in multiset(written);
    }
    if ThreadsFitU32(rows) {
      NoDupPermutation(written, r);
    }
  }

  // ---------------------------------------------------------------------
  // The e_min tensor

  /** `Array3::from_shape_vec((m, n, k), xs)`: the cells cut into `m`
      blocks of `n` rows of `k` cells, in row-major order. */
  function Reshape(xs: seq<real>, m: nat, n: nat, k: nat): (t: seq<seq<seq<real>>>)
    requires |xs| == m * (n * k)
    ensures |t| == m
    ensures forall i :: 0 <= i < m ==> |t[i]| == n && forall j :: 0 <= j < n ==> |t[i][j]| == k
  {
    var blocks := Chunks(xs, n * k, m);
    seq(m, i requires 0 <= i < m => Chunks(blocks[i], k, n))
  }

  /** Reading the tensor back in row-major order gives the cells. */
  lemma ReshapeFlatten(xs: seq<real>, m: nat, n: nat, k: nat)
    requires |xs| == m * (n * k)
    ensures Flatten(Map(Reshape(xs, m, n, k), (b: seq<seq<real>>) => Flatten(b))) == xs
  {
    var blocks := Chunks(xs, n * k, m);
    var t := Reshape(xs, m, n, k);
    forall i | 0 <= i < m ensures Flatten(t[i]) == blocks[i] {
      FlattenChunks(blocks[i], k, n);
    }
    assert Map(t, (b: seq<seq<real>>) => Flatten(b)) == blocks;
    FlattenChunks(xs, n * k, m);
  }

  /** Cell `(i, j, s)` of the tensor is cell `i*n*k + j*k + s` of the
      input. */
  lemma ReshapeAt(xs: seq<real>, m: nat, n: nat, k: nat, i: nat, j: nat, s: nat)
    requires |xs| == m * (n * k)
    requires i < m && j < n && s < k
    ensures i * (n * k) + (j * k + s) < |xs|
    ensures Reshape(xs, m, n, k)[i][j][s] == xs[i * (n * k) + (j * k + s)]
  {
    var blocks := Chunks(xs, n * k, m);
    var t := Reshape(xs, m, n, k);
    FlattenChunks(blocks[i], k, n);
    FlattenRectangularAt(t[i], k, j, s);
    FlattenChunks(xs, n * k, m);
    FlattenRectangularAt(blocks, n * k, i, j * k + s);
  }

  // ---------------------------------------------------------------------
  // The table's height

  lemma StatInstancesSound(rows: seq<Row>, k: nat, pick: (nat, nat, nat) -> nat, g: InstanceKey)
    requires k > 0 && g in StatInstances(StatsBySampling(rows, k, pick).value)
    ensures g in InstanceKeys(rows)
  {
    var stats := StatsBySampling(rows, k, pick).value;
    StatsBySamplingFacts(rows, k, pick);
    var i :| 0 <= i < |stats| && stats[i].instance == g;
    assert stats[i] in stats;
    var p := Pair(g, stats[i].algorithm);
    assert p in Pairs(rows);
    var j :| 0 <= j < |rows| && PairOf(rows[j]) == p;
    assert IKey(rows[j]) == g;
  }

  lemma StatInstancesComplete(rows: seq<Row>, k: nat, pick: (nat, nat, nat) -> nat, g: InstanceKey)
    requires k > 0 && g in InstanceKeys(rows)
    ensures g in StatInstances(StatsBySampling(rows, k, pick).value)
  {
    var stats := StatsBySampling(rows, k, pick).value;
    StatsBySamplingFacts(rows, k, pick);
    var j :| 0 <= j < |rows| && IKey(rows[j]) == g;
    var p := PairOf(rows[j]);
    assert p in Pairs(rows);
    var key := StatKey(p.instance, p.algorithm, 1);
    assert key in Map(stats, KeyOf);
    var i :| 0 <= i < |stats| && KeyOf(stats[i]) == key;
    assert stats[i].instance == g;
  }

  /** The instances of the sampled table are those of the valid table. */
  lemma StatInstancesMatch(rows: seq<Row>, k: nat, pick: (nat, nat, nat) -> nat)
    requires k > 0
    ensures |StatInstances(StatsBySampling(rows, k, pick).value)| == |InstanceKeys(rows)|
  {
    var stats := StatsBySampling(rows, k, pick).value;
    forall g ensures g in StatInstances(stats) <==> g in InstanceKeys(rows) {
      if g in StatInstances(stats) {
        StatInstancesSound(rows, k, pick, g);
      }
      if g in InstanceKeys(rows) {
        StatInstancesComplete(rows, k, pick, g);
      }
    }
    SameElementsSameLength(StatInstances(stats), InstanceKeys(rows));
  }

  lemma StatAlgorithmsSound(rows: seq<Row>, k: nat, pick: (nat, nat, nat) -> nat, a: AlgorithmKey)
    requires k > 0 && a in StatAlgorithms(StatsBySampling(rows, k, pick).value)
    ensures a in AlgorithmKeys(rows)
  {
    var stats := StatsBySampling(rows, k, pick).value;
    StatsBySamplingFacts(rows, k, pick);
    var i :| 0 <= i < |stats| && stats[i].algorithm == a;
    assert stats[i] in stats;
    var p := Pair(stats[i].instance, a);
    assert p in Pairs(rows);
    var j :| 0 <= j < |rows| && PairOf(rows[j]) == p;
    assert AKey(rows[j]) == a;
  }

  lemma StatAlgorithmsComplete(rows: seq<Row>, k: nat, pick: (nat, nat, nat) -> nat, a: AlgorithmKey)
    requires k > 0 && a in AlgorithmKeys(rows)
    ensures a in StatAlgorithms(StatsBySampling(rows, k, pick).value)
  {
    var stats := StatsBySampling(rows, k, pick).value;
    StatsBySamplingFacts(rows, k, pick);
    var j :| 0 <= j < |rows| && AKey(rows[j]) == a;
    var p := PairOf(rows[j]);
    assert p in Pairs(rows);
    var key := StatKey(p.instance, p.algorithm, 1);
    assert key in Map(stats, KeyOf);
    var i :| 0 <= i < |stats| && KeyOf(stats[i]) == key;
    assert stats[i].algorithm == a;
  }

  /** The algorithms of the sampled table are those of the valid table. */
  lemma StatAlgorithmsMatch(rows: seq<Row>, k: nat, pick: (nat, nat, nat) -> nat)
    requires k > 0
    ensures |StatAlgorithms(StatsBySampling(rows, k, pick).value)| == |AlgorithmKeys(rows)|
  {
    var stats := StatsBySampling(rows, k, pick).value;
    forall a ensures a in StatAlgorithms(stats) <==> a in AlgorithmKeys(rows) {
      if a in StatAlgorithms(stats) {
        StatAlgorithmsSound(rows, k, pick, a);
      }
      if a in AlgorithmKeys(rows) {
        StatAlgorithmsComplete(rows, k, pick, a);
      }
    }
    SameElementsSameLength(StatAlgorithms(stats), AlgorithmKeys(rows));
  }

  /** The completed table, sorted again. */
  function CleanTable(stats: seq<StatRow>, k: nat): seq<StatRow> {
    Sort(CleanupMissingRows(stats, k), StatRowLe)
  }

  /** The sampled table has no repeated key and its sample sizes lie in
      `1..=k`. */
  lemma StatsKeysInRange(rows: seq<Row>, k: nat, pick: (nat, nat, nat) -> nat)
    requires k > 0
    ensures var stats := StatsBySampling(rows, k, pick).value;
      && NoDup(Map(stats, KeyOf))
      && forall i :: 0 <= i < |stats| ==> 1 <= stats[i].sampleSize <= k
  {
    var stats := StatsBySampling(rows, k, pick).value;
    StatsBySamplingFacts(rows, k, pick);
    forall i | 0 <= i < |stats| ensures 1 <= stats[i].sampleSize <= k {
      assert stats[i] in stats;
    }
  }

  lemma ProductAssociates(m: nat, n: nat, k: nat)
    ensures m * (n * k) == m * n * k
  {
  }

  /** The completed sampled table has one row per instance, algorithm and
      sample size: the height assertion of `Data::new` holds. */
  lemma CleanTableHeight(rows: seq<Row>, k: nat, pick: (nat, nat, nat) -> nat)
    requires k > 0
    ensures |CleanTable(StatsBySampling(rows, k, pick).value, k)|
      == |InstanceKeys(rows)| * |AlgorithmKeys(rows)| * k
  {
    var stats := StatsBySampling(rows, k, pick).value;
    StatsKeysInRange(rows, k, pick);
    CleanupMissingRowsCount(stats, k);
    StatInstancesMatch(rows, k, pick);
    StatAlgorithmsMatch(rows, k, pick);
    ProductAssociates(|InstanceKeys(rows)|, |AlgorithmKeys(rows)|, k);
  }

  // ---------------------------------------------------------------------
  // Data::new

  /** The solver's input. Counts are whole numbers (the source stores them
      as floats). */
  datatype Data = Data(
    table: seq<Row>,
    instances: seq<Instance>,
    algorithms: seq<Algorithm>,
    bestPerInstance: seq<real>,
    bestPerInstanceTime: seq<real>,
    bestPerInstanceCount: seq<int>,
    stats: seq<seq<seq<real>>>,
    numInstances: nat,
    numAlgorithms: nat)

  /** The shape the solver relies on: one entry per instance in the
      per-instance vectors, one per algorithm in the counts, and an
      instances × algorithms × `k` tensor. */
  predicate WellShaped(d: Data, k: nat) {
    && |d.instances| == d.numInstances
    && |d.algorithms| == d.numAlgorithms
    && |d.bestPerInstance| == d.numInstances
    && |d.bestPerInstanceTime| == d.numInstances
    && |d.bestPerInstanceCount| == d.numAlgorithms
    && |d.stats| == d.numInstances
    && (forall i :: 0 <= i < |d.stats| ==> |d.stats[i]| == d.numAlgorithms)
    && (forall i, j :: 0 <= i < |d.stats| && 0 <= j < |d.stats[i]| ==> |d.stats[i][j]| == k)
  }

  function BestTimes(rows: seq<Row>): seq<real> {
    Map(BestPerInstanceTime(rows), (p: (InstanceKey, real)) => p.1)
  }

  /** The count column of `best_per_instance_count`, in the join's row
      order, as `Data::new` stores it. */
  function Counts(rows: seq<Row>, order: JoinOrder): seq<int> {
    Map(BestPerInstanceCount(rows, order), CountValue)
  }

  /** Whether instance group `g` has its best row on algorithm `a`, with
      the thread count read through the `u32` cast as in the algorithm
      list. */
  function WonByAlgorithm(rows: seq<Row>, a: Algorithm): InstanceKey -> bool {
    g => g in InstanceKeys(rows) && ToAlgorithm(AKey(BestRow(rows, g))) == a
  }

  /** The number of instance groups whose best row is of algorithm `a`. */
  function Wins(rows: seq<Row>, a: Algorithm): (r: nat)
    ensures r <= |InstanceKeys(rows)|
  {
    |Filter(InstanceKeys(rows), WonByAlgorithm(rows, a))|
  }

  /** The counts as the solver reads them: position `j` holds the count of
      `algorithms[j]`. */
  function AlignedCounts(rows: seq<Row>, algorithms: seq<Algorithm>): (r: seq<int>)
    ensures |r| == |algorithms|
    ensures forall j :: 0 <= j < |r| ==> r[j] == Wins(rows, algorithms[j])
  {
    seq(|algorithms|, j requires 0 <= j < |algorithms| => Wins(rows, algorithms[j]))
  }

  /** Keys whose thread counts fit a `u32` keep their identity through the
      cast. */
  lemma ToAlgorithmInjective(x: AlgorithmKey, y: AlgorithmKey)
    requires 0 <= x.threads < U32_LIMIT && 0 <= y.threads < U32_LIMIT
    requires ToAlgorithm(x) == ToAlgorithm(y)
    ensures x == y
  {
  }

  /** With thread counts that fit a `u32`, an algorithm key and its
      `Algorithm` win the same groups. */
  lemma WinsOfKey(rows: seq<Row>, key: AlgorithmKey)
    requires ThreadsFitU32(rows) && key in AlgorithmKeys(rows)
    ensures Wins(rows, ToAlgorithm(key)) == |Filter(InstanceKeys(rows), WonBy(rows, key))|
  {
    var keys := InstanceKeys(rows);
    var i0 :| 0 <= i0 < |rows| && AKey(rows[i0]) == key;
    assert rows[i0] in rows;
    forall i | 0 <= i < |keys| ensures WonByAlgorithm(rows, ToAlgorithm(key))(keys[i]) == WonBy(rows, key)(keys[i]) {
      assert keys[i] in keys;
      var b := BestRow(rows, keys[i]);
      if ToAlgorithm(AKey(b)) == ToAlgorithm(key) {
        ToAlgorithmInjective(AKey(b), key);
      }
    }
    FilterCongruent(keys, WonByAlgorithm(rows, ToAlgorithm(key)), WonBy(rows, key));
  }

  /** The aligned counts are the counts of `best_per_instance_count`
      moved to the positions of their algorithms in the list. */
  lemma AlignedCountsReorder(rows: seq<Row>, order: JoinOrder, algorithms: seq<Algorithm>, i: nat, j: nat)
    requires ThreadsFitU32(rows)
    requires i < |BestPerInstanceCount(rows, order)| && j < |algorithms|
    requires algorithms[j] == ToAlgorithm(BestPerInstanceCount(rows, order)[i].0)
    ensures AlignedCounts(rows, algorithms)[j] == BestPerInstanceCount(rows, order)[i].1
  {
    WinsOfKey(rows, BestPerInstanceCount(rows, order)[i].0);
  }

  /** When the join keeps the row order of `algorithm_series`, the counts
      are already aligned with the first-appearance algorithm list. */
  lemma SeriesOrderAligned(rows: seq<Row>)
    requires ThreadsFitU32(rows)
    ensures Counts(rows, SeriesOrder) == AlignedCounts(rows, AlgorithmListAsWritten(rows))
  {
    var c, a := Counts(rows, SeriesOrder), AlignedCounts(rows, AlgorithmListAsWritten(rows));
    forall j | 0 <= j < |a| ensures c[j] == a[j] {
      WinsOfKey(rows, AlgorithmKeys(rows)[j]);
    }
  }

  function EMins(clean: seq<StatRow>): seq<real> {
    Map(clean, (x: StatRow) => x.eMin)
  }

  /** The sampled table as a tensor, after the height check. */
  function Tensor(stats: seq<StatRow>, m: nat, n: nat, k: nat): (r: Result<seq<seq<seq<real>>>, DataError>)
    ensures r.Ok? <==> m * n * k == |CleanTable(stats, k)|
    ensures r.Ok? ==> |r.value| == m && forall i :: 0 <= i < m ==>
      |r.value[i]| == n && forall j :: 0 <= j < n ==> |r.value[i][j]| == k
  {
    var clean := CleanTable(stats, k);
    if m * n * k != |clean| then Err(HeightMismatch)
    else
      ProductAssociates(m, n, k);
      Ok(Reshape(EMins(clean), m, n, k))
  }

  /** The data once the lists have passed their assertions: the
      per-instance summaries and the tensor. */
  function Assemble(table: seq<Row>, valid: seq<Row>, instances: seq<Instance>, algorithms: seq<Algorithm>,
                    best: seq<real>, counts: seq<int>, k: nat, pick: (nat, nat, nat) -> nat)
    : (r: Result<Data, DataError>)
    ensures r.Ok? ==> r.value.instances == instances && r.value.algorithms == algorithms
    ensures r.Ok? ==> r.value.bestPerInstance == best && r.value.bestPerInstanceCount == counts
    ensures r.Ok? ==> r.value.numInstances == |instances| && r.value.numAlgorithms == |algorithms|
  {
    if StatsBySampling(valid, k, pick).Err? then Err(SamplingFailed)
    else
      var stats :- Tensor(StatsBySampling(valid, k, pick).value, |instances|, |algorithms|, k);
      Ok(Data(table, instances, algorithms, best, BestTimes(valid), counts,
        stats, |instances|, |algorithms|))
  }

  /** The assertion on the best qualities, then the rest. */
  function CheckBest(table: seq<Row>, valid: seq<Row>, instances: seq<Instance>, algorithms: seq<Algorithm>,
                     counts: seq<int>, k: nat, pick: (nat, nat, nat) -> nat): (r: Result<Data, DataError>)
    ensures r.Ok? ==> r.value.instances == instances && r.value.algorithms == algorithms
    ensures r.Ok? ==> r.value.bestPerInstanceCount == counts
    ensures r.Ok? ==> r.value.numInstances == |instances| && r.value.numAlgorithms == |algorithms|
    ensures r.Ok? ==> forall i :: 0 <= i < |r.value.bestPerInstance| ==> Abs(r.value.bestPerInstance[i]) >= EPSILON
  {
    var best := BestPerInstance(valid);
    if exists i :: 0 <= i < |best| && Abs(best[i]) < EPSILON then Err(NearZeroBest)
    else Assemble(table, valid, instances, algorithms, best, counts, k, pick)
  }

  /** Data, if any, has instances and algorithms. */
  predicate HasKeys(r: Result<Data, DataError>) {
    r.Ok? ==> r.value.numInstances > 0 && r.value.numAlgorithms > 0
  }

  /** Data, if any, holds at position `j` of its counts the number of
      instance groups of `valid` that algorithm `j` is best on. */
  predicate CountsAligned(r: Result<Data, DataError>, valid: seq<Row>) {
    r.Ok? ==> forall j :: 0 <= j < |r.value.algorithms| && j < |r.value.bestPerInstanceCount| ==>
      r.value.bestPerInstanceCount[j] == Wins(valid, r.value.algorithms[j])
  }

  /** Everything `Data::new` derives from the valid table: the lists and
      their assertions, the per-instance summaries and the tensor. The
      algorithm list is in order of first appearance and the counts are in
      the row order `order` that `best_per_instance_count` returns them in. */
  function Summaries(table: seq<Row>, valid: seq<Row>, k: nat, pick: (nat, nat, nat) -> nat, order: JoinOrder)
    : (r: Result<Data, DataError>)
    requires valid != []
    ensures HasKeys(r)
  {
    NonEmptyKeys(valid);
    CheckSorted(table, valid, ExtractInstances(valid), AlgorithmListAsWritten(valid), Counts(valid, order), k, pick)
  }

  /** The summaries as intended: the algorithm list sorted, and each
      algorithm's count at the algorithm's own position. */
  function SummariesSorted(table: seq<Row>, valid: seq<Row>, k: nat, pick: (nat, nat, nat) -> nat)
    : (r: Result<Data, DataError>)
    requires valid != []
    ensures HasKeys(r)
    ensures CountsAligned(r, valid)
  {
    NonEmptyKeys(valid);
    var algorithms := AlgorithmList(valid);
    var counts := AlignedCounts(valid, algorithms);
    var r := CheckSorted(table, valid, ExtractInstances(valid), algorithms, counts, k, pick);
    assert r.Ok? ==> r.value.algorithms == algorithms && r.value.bestPerInstanceCount == counts;
    r
  }

  /** The assertions that both lists are sorted, then the rest. */
  function CheckSorted(table: seq<Row>, valid: seq<Row>, instances: seq<Instance>, algorithms: seq<Algorithm>,
                       counts: seq<int>, k: nat, pick: (nat, nat, nat) -> nat): (r: Result<Data, DataError>)
    ensures r.Ok? ==> r.value.numInstances == |instances| && r.value.numAlgorithms == |algorithms|
    ensures r.Ok? ==> r.value.algorithms == algorithms && r.value.bestPerInstanceCount == counts
    ensures r.Ok? ==> AdjacentSorted(r.value.instances, InstanceLe)
    ensures r.Ok? ==> AdjacentSorted(r.value.algorithms, AlgorithmLe)
    ensures r.Ok? ==> forall i :: 0 <= i < |r.value.bestPerInstance| ==> Abs(r.value.bestPerInstance[i]) >= EPSILON
  {
    if !AdjacentSorted(instances, InstanceLe) then Err(InstancesUnsorted)
    else if !AdjacentSorted(algorithms, AlgorithmLe) then Err(AlgorithmsUnsorted)
    else CheckBest(table, valid, instances, algorithms, counts, k, pick)
  }

  /** `Data::new`: `files` are the benchmark files named by the
      configuration, `graphs` the graphs file, `ln` the logarithm and
      `pick` the sampler's index draws and `order` the row order of the
      outer join in `best_per_instance_count`. Each failed assertion,
      failed `expect` and the early exit is an `Err`; the table kept is
      the sorted table before the validity filter. */
  function NewData(files: seq<CsvFile>, graphs: GraphsCsv, cfg: ConfigValues,
                   ln: real -> real, pick: (nat, nat, nat) -> nat, order: JoinOrder): (r: Result<Data, DataError>)
    ensures files == [] ==> r == Err(NoInputFiles)
    ensures r.Ok? ==> r.value.numInstances > 0 && r.value.numAlgorithms > 0
    ensures r.Ok? ==> AdjacentSorted(r.value.instances, InstanceLe)
    ensures r.Ok? ==> AdjacentSorted(r.value.algorithms, AlgorithmLe)
    ensures r.Ok? ==> forall i :: 0 <= i < |r.value.bestPerInstance| ==> Abs(r.value.bestPerInstance[i]) >= EPSILON
  {
    var table :- Table(files, graphs, cfg);
    var valid := ValidTable(table, cfg.numCores, cfg.slowdownRatio, ln);
    if valid == [] then Err(NoValidRows)
    else Summaries(table, valid, cfg.numCores, pick, order)
  }

  /** `Data::new` as intended: the same steps with the sorted algorithm
      list and the counts aligned with it. */
  function NewDataSorted(files: seq<CsvFile>, graphs: GraphsCsv, cfg: ConfigValues,
                         ln: real -> real, pick: (nat, nat, nat) -> nat): (r: Result<Data, DataError>)
    ensures files == [] ==> r == Err(NoInputFiles)
    ensures r.Ok? ==> r.value.numInstances > 0 && r.value.numAlgorithms > 0
    ensures r.Ok? ==> AdjacentSorted(r.value.instances, InstanceLe)
    ensures r.Ok? ==> AdjacentSorted(r.value.algorithms, AlgorithmLe)
    ensures r.Ok? ==> forall i :: 0 <= i < |r.value.bestPerInstance| ==> Abs(r.value.bestPerInstance[i]) >= EPSILON
    ensures r.Ok? ==>
      && Table(files, graphs, cfg).Ok?
      && CountsAligned(r, ValidTable(Table(files, graphs, cfg).value, cfg.numCores, cfg.slowdownRatio, ln))
  {
    var table :- Table(files, graphs, cfg);
    var valid := ValidTable(table, cfg.numCores, cfg.slowdownRatio, ln);
    if valid == [] then Err(NoValidRows)
    else SummariesSorted(table, valid, cfg.numCores, pick)
  }

  lemma NonEmptyKeys(rows: seq<Row>)
    requires rows != []
    ensures |ExtractInstances(rows)| > 0 && |AlgorithmList(rows)| > 0 && |AlgorithmListAsWritten(rows)| > 0
  {
    assert ToInstance(IKey(rows[0])) in ExtractInstances(rows);
    AlgorithmListMembers(rows);
    assert rows[0] in rows;
  }

  // ---------------------------------------------------------------------
  // The assertions of Data::new hold

  lemma ExtractInstancesLength(rows: seq<Row>)
    ensures |ExtractInstances(rows)| == |InstanceKeys(rows)|
  {
  }

  /** The best quality of each instance is the quality of one of its runs,
      so a table without near-zero qualities has no near-zero best. */
  lemma BestAwayFromZero(rows: seq<Row>)
    requires forall x :: x in rows ==> Abs(x.quality) >= EPSILON
    ensures forall i :: 0 <= i < |BestPerInstance(rows)| ==> Abs(BestPerInstance(rows)[i]) >= EPSILON
  {
    var best := BestPerInstance(rows);
    forall i | 0 <= i < |best| ensures Abs(best[i]) >= EPSILON {
      var x :| x in rows && IKey(x) == InstanceKeys(rows)[i] && x.quality == best[i];
    }
  }

  /** One count per algorithm of the table. */
  lemma CountsLength(rows: seq<Row>, order: JoinOrder)
    ensures |Counts(rows, order)| == |AlgorithmKeys(rows)|
  {
    BestPerInstanceCountKeys(rows, order);
    SameElementsSameLength(Map(BestPerInstanceCount(rows, order), CountName), AlgorithmKeys(rows));
  }

  /** Once the lists pass, the rest succeeds exactly when there is a sample
      size to draw, and then every vector has its expected length. */
  lemma AssembleSucceeds(table: seq<Row>, valid: seq<Row>, algorithms: seq<Algorithm>, counts: seq<int>,
                         k: nat, pick: (nat, nat, nat) -> nat)
    requires |algorithms| == |AlgorithmKeys(valid)| && |counts| == |algorithms|
    ensures var r := Assemble(table, valid, ExtractInstances(valid), algorithms,
      BestPerInstance(valid), counts, k, pick);
      && (k == 0 <==> r == Err(SamplingFailed))
      && (k > 0 ==> r.Ok? && WellShaped(r.value, k))
  {
    if k > 0 {
      var instances, best := ExtractInstances(valid), BestPerInstance(valid);
      var samples := StatsBySampling(valid, k, pick).value;
      assert |CleanTable(samples, k)| == |instances| * |algorithms| * k by {
        CleanTableHeight(valid, k, pick);
        ExtractInstancesLength(valid);
      }
      assert |best| == |instances| && |BestTimes(valid)| == |instances| by {
        ExtractInstancesLength(valid);
      }
      AssembleShape(table, valid, instances, algorithms, best, counts, k, pick);
    }
  }

  /** With lists and summaries of matching lengths and a completed table of
      the right height, `Assemble` yields well-shaped data. */
  lemma AssembleShape(table: seq<Row>, valid: seq<Row>, instances: seq<Instance>, algorithms: seq<Algorithm>,
                      best: seq<real>, counts: seq<int>, k: nat, pick: (nat, nat, nat) -> nat)
    requires k > 0
    requires |CleanTable(StatsBySampling(valid, k, pick).value, k)| == |instances| * |algorithms| * k
    requires |best| == |instances| && |BestTimes(valid)| == |instances| && |counts| == |algorithms|
    ensures var r := Assemble(table, valid, instances, algorithms, best, counts, k, pick);
      r.Ok? && WellShaped(r.value, k)
  {
    var t := Tensor(StatsBySampling(valid, k, pick).value, |instances|, |algorithms|, k);
    var d := Data(table, instances, algorithms, best, BestTimes(valid), counts, t.value, |instances|, |algorithms|);
    assert Assemble(table, valid, instances, algorithms, best, counts, k, pick) == Ok(d);
    TensorShape(t.value, |instances|, |algorithms|, k, d);
  }

  lemma TensorShape(stats: seq<seq<seq<real>>>, m: nat, n: nat, k: nat, d: Data)
    requires |stats| == m && forall i :: 0 <= i < m ==> |stats[i]| == n && forall j :: 0 <= j < n ==> |stats[i][j]| == k
    requires d.stats == stats && d.numInstances == m && d.numAlgorithms == n
    requires |d.instances| == m && |d.algorithms| == n && |d.bestPerInstance| == m
    requires |d.bestPerInstanceTime| == m && |d.bestPerInstanceCount| == n
    ensures WellShaped(d, k)
  {
  }

  /** What `Data::new` yields once the valid table is known: the early
      exit exactly when no run is valid; the panic on the algorithm list
      exactly when the first-appearance list is unsorted; otherwise the
      sampling error exactly when `k` is zero, and data of the expected
      shape exactly when it is not. */
  predicate OutcomeAsWritten(r: Result<Data, DataError>, valid: seq<Row>, k: nat) {
    var sorted := AdjacentSorted(AlgorithmListAsWritten(valid), AlgorithmLe);
    && (r == Err(NoValidRows) <==> valid == [])
    && (r == Err(AlgorithmsUnsorted) <==> valid != [] && !sorted)
    && (r == Err(SamplingFailed) <==> valid != [] && sorted && k == 0)
    && (r.Ok? <==> valid != [] && sorted && k > 0)
    && (r.Ok? ==> WellShaped(r.value, k))
  }

  /** What the intended `Data::new` yields once the valid table is known:
      the early exit exactly when no run is valid, the sampling error
      exactly when `k` is zero, and otherwise data of the expected shape.
      No assertion fails. */
  predicate Outcome(r: Result<Data, DataError>, valid: seq<Row>, k: nat) {
    && (r == Err(NoValidRows) <==> valid == [])
    && (r == Err(SamplingFailed) <==> valid != [] && k == 0)
    && (r.Ok? <==> valid != [] && k > 0)
    && (r.Ok? ==> WellShaped(r.value, k))
  }

  /** On a sorted table with qualities away from zero and `k` values that
      fit a `u32`, the only assertion of `Data::new` that can fail is the
      one on the algorithm list, and it fails exactly when the
      first-appearance list is unsorted. Otherwise the result is data of
      the expected shape, or the sampling error when there are no cores. */
  lemma SummariesSucceed(table: seq<Row>, valid: seq<Row>, k: nat, pick: (nat, nat, nat) -> nat, order: JoinOrder)
    requires valid != [] && SortedBy(valid, RowLe) && KsFitU32(valid)
    requires forall x :: x in valid ==> Abs(x.quality) >= EPSILON
    ensures OutcomeAsWritten(Summaries(table, valid, k, pick, order), valid, k)
  {
    var instances, algorithms, counts := ExtractInstances(valid), AlgorithmListAsWritten(valid), Counts(valid, order);
    var r := Summaries(table, valid, k, pick, order);
    assert r == CheckSorted(table, valid, instances, algorithms, counts, k, pick);
    InstancesSorted(valid);
    if AdjacentSorted(algorithms, AlgorithmLe) {
      CountsLength(valid, order);
      CheckSortedPasses(table, valid, algorithms, counts, k, pick);
      AssembleSucceeds(table, valid, algorithms, counts, k, pick);
    }
    OutcomeAsWrittenCases(r, valid, k);
  }

  /** The cases of `OutcomeAsWritten` for a non-empty valid table. */
  lemma OutcomeAsWrittenCases(r: Result<Data, DataError>, valid: seq<Row>, k: nat)
    requires valid != []
    requires !AdjacentSorted(AlgorithmListAsWritten(valid), AlgorithmLe) ==> r == Err(AlgorithmsUnsorted)
    requires AdjacentSorted(AlgorithmListAsWritten(valid), AlgorithmLe) ==>
      (k == 0 <==> r == Err(SamplingFailed)) && (k > 0 ==> r.Ok? && WellShaped(r.value, k))
    ensures OutcomeAsWritten(r, valid, k)
  {
  }

  /** When both lists are sorted and no best quality is near zero, the
      assertions pass and the result is that of `Assemble`. */
  lemma CheckSortedPasses(table: seq<Row>, valid: seq<Row>, algorithms: seq<Algorithm>, counts: seq<int>,
                          k: nat, pick: (nat, nat, nat) -> nat)
    requires AdjacentSorted(ExtractInstances(valid), InstanceLe) && AdjacentSorted(algorithms, AlgorithmLe)
    requires forall x :: x in valid ==> Abs(x.quality) >= EPSILON
    ensures CheckSorted(table, valid, ExtractInstances(valid), algorithms, counts, k, pick)
      == Assemble(table, valid, ExtractInstances(valid), algorithms, BestPerInstance(valid), counts, k, pick)
  {
    BestAwayFromZero(valid);
  }

  /** The intended summaries on such a table: no assertion fails; the
      result is data of the expected shape, or the sampling error when
      there are no cores. */
  lemma SummariesSortedSucceed(table: seq<Row>, valid: seq<Row>, k: nat, pick: (nat, nat, nat) -> nat)
    requires valid != [] && SortedBy(valid, RowLe) && KsFitU32(valid)
    requires forall x :: x in valid ==> Abs(x.quality) >= EPSILON
    ensures Outcome(SummariesSorted(table, valid, k, pick), valid, k)
  {
    var algorithms := AlgorithmList(valid);
    var counts := AlignedCounts(valid, algorithms);
    var r := SummariesSorted(table, valid, k, pick);
    assert r == CheckSorted(table, valid, ExtractInstances(valid), algorithms, counts, k, pick);
    InstancesSorted(valid);
    AlgorithmListMembers(valid);
    CheckSortedPasses(table, valid, algorithms, counts, k, pick);
    AssembleSucceeds(table, valid, algorithms, counts, k, pick);
    OutcomeCases(r, valid, k);
  }

  /** The cases of `Outcome` for a non-empty valid table. */
  lemma OutcomeCases(r: Result<Data, DataError>, valid: seq<Row>, k: nat)
    requires valid != []
    requires (k == 0 <==> r == Err(SamplingFailed)) && (k > 0 ==> r.Ok? && WellShaped(r.value, k))
    ensures Outcome(r, valid, k)
  {
  }

  /** `Data::new` on files it can read (with `k` values that fit a `u32`):
      it exits early exactly when no run is valid; otherwise it panics on
      the algorithm list exactly when the first-appearance list is
      unsorted, and when that list is sorted it fails exactly when there
      are no cores to sample for and otherwise yields data of the expected
      shape. */
  lemma NewDataAssertionsHold(files: seq<CsvFile>, graphs: GraphsCsv, cfg: ConfigValues,
                              ln: real -> real, pick: (nat, nat, nat) -> nat, order: JoinOrder)
    requires Table(files, graphs, cfg).Ok?
    requires KsFitU32(Table(files, graphs, cfg).value)
    ensures OutcomeAsWritten(NewData(files, graphs, cfg, ln, pick, order),
      ValidTable(Table(files, graphs, cfg).value, cfg.numCores, cfg.slowdownRatio, ln), cfg.numCores)
  {
    var table := Table(files, graphs, cfg).value;
    var valid := ValidTable(table, cfg.numCores, cfg.slowdownRatio, ln);
    if valid == [] {
      assert NewData(files, graphs, cfg, ln, pick, order) == Err(NoValidRows);
    } else {
      assert NewData(files, graphs, cfg, ln, pick, order) == Summaries(table, valid, cfg.numCores, pick, order);
      SummariesSucceed(table, valid, cfg.numCores, pick, order);
    }
  }

  /** The intended `Data::new` on files it can read: it exits early
      exactly when no run is valid, fails exactly when there are no cores
      to sample for, and otherwise yields data of the expected shape. None
      of its assertions fails (given `k` values that fit a `u32`). */
  lemma NewDataSortedAssertionsHold(files: seq<CsvFile>, graphs: GraphsCsv, cfg: ConfigValues,
                                    ln: real -> real, pick: (nat, nat, nat) -> nat)
    requires Table(files, graphs, cfg).Ok?
    requires KsFitU32(Table(files, graphs, cfg).value)
    ensures Outcome(NewDataSorted(files, graphs, cfg, ln, pick),
      ValidTable(Table(files, graphs, cfg).value, cfg.numCores, cfg.slowdownRatio, ln), cfg.numCores)
  {
    var table := Table(files, graphs, cfg).value;
    var valid := ValidTable(table, cfg.numCores, cfg.slowdownRatio, ln);
    if valid == [] {
      assert NewDataSorted(files, graphs, cfg, ln, pick) == Err(NoValidRows);
    } else {
      assert NewDataSorted(files, graphs, cfg, ln, pick) == SummariesSorted(table, valid, cfg.numCores, pick);
      SummariesSortedSucceed(table, valid, cfg.numCores, pick);
    }
  }

  /** On the sorted, valid table whose first-appearance algorithm list is
      [y, x], the assertion on the algorithm list fails: `Data::new`
      panics. */
  lemma SummariesFailOnCounterexample(table: seq<Row>, k: nat, pick: (nat, nat, nat) -> nat, order: JoinOrder)
    ensures Summaries(table, COUNTEREXAMPLE, k, pick, order) == Err(AlgorithmsUnsorted)
  {
    CounterexampleReadable();
    SummariesFailWhenUnsorted(table, COUNTEREXAMPLE, k, pick, order);
  }

  /** The counterexample is a sorted table whose `k` values fit a `u32`,
      with qualities away from zero and an unsorted first-appearance
      algorithm list. */
  lemma CounterexampleReadable()
    ensures COUNTEREXAMPLE != [] && SortedBy(COUNTEREXAMPLE, RowLe) && KsFitU32(COUNTEREXAMPLE)
    ensures forall x :: x in COUNTEREXAMPLE ==> Abs(x.quality) >= EPSILON
    ensures !AdjacentSorted(AlgorithmListAsWritten(COUNTEREXAMPLE), AlgorithmLe)
  {
    AlgorithmListAsWrittenUnsorted();
    CounterexampleBounds();
  }

  lemma CounterexampleBounds()
    ensures KsFitU32(COUNTEREXAMPLE)
    ensures forall x :: x in COUNTEREXAMPLE ==> Abs(x.quality) >= EPSILON
  {
    forall x | x in COUNTEREXAMPLE ensures 0 <= x.k < U32_LIMIT && x.quality == 10.0 {
    }
  }

  /** With the join in the row order of `algorithm_series`, the data
      `Data::new` returns holds each algorithm's count at its position in
      the algorithm list. */
  lemma SummariesSeriesOrderAligned(table: seq<Row>, valid: seq<Row>, k: nat, pick: (nat, nat, nat) -> nat)
    requires valid != [] && ThreadsFitU32(valid)
    ensures CountsAligned(Summaries(table, valid, k, pick, SeriesOrder), valid)
  {
    SeriesOrderAligned(valid);
  }

  lemma NewDataSeriesOrderAligned(files: seq<CsvFile>, graphs: GraphsCsv, cfg: ConfigValues,
                                  ln: real -> real, pick: (nat, nat, nat) -> nat)
    requires Table(files, graphs, cfg).Ok?
    requires ThreadsFitU32(ValidTable(Table(files, graphs, cfg).value, cfg.numCores, cfg.slowdownRatio, ln))
    ensures CountsAligned(NewData(files, graphs, cfg, ln, pick, SeriesOrder),
      ValidTable(Table(files, graphs, cfg).value, cfg.numCores, cfg.slowdownRatio, ln))
  {
    var table := Table(files, graphs, cfg).value;
    var valid := ValidTable(table, cfg.numCores, cfg.slowdownRatio, ln);
    if valid != [] {
      SummariesSeriesOrderAligned(table, valid, cfg.numCores, pick);
    }
  }

  /** On such a table an unsorted first-appearance list is the panic. */
  lemma SummariesFailWhenUnsorted(table: seq<Row>, valid: seq<Row>, k: nat, pick: (nat, nat, nat) -> nat, order: JoinOrder)
    requires valid != [] && SortedBy(valid, RowLe) && KsFitU32(valid)
    requires forall x :: x in valid ==> Abs(x.quality) >= EPSILON
    requires !AdjacentSorted(AlgorithmListAsWritten(valid), AlgorithmLe)
    ensures Summaries(table, valid, k, pick, order) == Err(AlgorithmsUnsorted)
  {
    SummariesSucceed(table, valid, k, pick, order);
  }

  // ---------------------------------------------------------------------
  // The counts and the algorithm list, read together by `get_b_start`

  /** Two instances, two algorithms; "y" is best on both. The table is
      sorted and its first-appearance algorithm list [x, y] is sorted too. */
  const MISALIGNED: seq<Row> := [
    Row("x", 1, "a", 2, 0.03, 0.0, 10.0, 1.0, "no", "no"),
    Row("y", 1, "a", 2, 0.03, 0.0, 5.0, 1.0, "no", "no"),
    Row("x", 1, "b", 2, 0.03, 0.0, 10.0, 1.0, "no", "no"),
    Row("y", 1, "b", 2, 0.03, 0.0, 5.0, 1.0, "no", "no")]

  lemma MisalignedSorted()
    ensures SortedBy(MISALIGNED, RowLe)
    ensures forall x :: x in MISALIGNED ==> IsValid(x, 1)
  {
    assert StrLe("a", "b");
    assert StrLe("x", "y");
  }

  lemma MisalignedKeys()
    ensures InstanceKeys(MISALIGNED) == [InstanceKey("a", 2, 0.03), InstanceKey("b", 2, 0.03)]
    ensures AlgorithmKeys(MISALIGNED) == [AlgorithmKey("x", 1), AlgorithmKey("y", 1)]
  {
    var a, b := InstanceKey("a", 2, 0.03), InstanceKey("b", 2, 0.03);
    var ik := Map(MISALIGNED, IKey);
    assert ik == [a, a, b, b];
    assert Distinct([a]) == [a];
    assert Distinct([a, a]) == [a] by { assert [a, a][..1] == [a]; }
    assert Distinct([a, a, b]) == [a, b] by { assert [a, a, b][..2] == [a, a]; }
    assert Distinct([a, a, b, b]) == [a, b] by { assert [a, a, b, b][..3] == [a, a, b]; }
    var x, y := AlgorithmKey("x", 1), AlgorithmKey("y", 1);
    var ak := Map(MISALIGNED, AKey);
    assert ak == [x, y, x, y];
    assert Distinct([x]) == [x];
    assert Distinct([x, y]) == [x, y] by { assert [x, y][..1] == [x]; }
    assert Distinct([x, y, x]) == [x, y] by { assert [x, y, x][..2] == [x, y]; }
    assert Distinct([x, y, x, y]) == [x, y] by { assert [x, y, x, y][..3] == [x, y, x]; }
  }

  /** "y" is the best algorithm of both instances. */
  lemma MisalignedWinners()
    ensures Winners(MISALIGNED) == [AlgorithmKey("y", 1), AlgorithmKey("y", 1)]
  {
    var a, b := InstanceKey("a", 2, 0.03), InstanceKey("b", 2, 0.03);
    MisalignedKeys();
    MisalignedBest(a, 1);
    MisalignedBest(b, 3);
    WinnersOfTwo(MISALIGNED, a, b);
  }

  /** In each instance group of `MISALIGNED` the run of "y" (5.0) beats
      the run of "x" (10.0). */
  lemma MisalignedBest(g: InstanceKey, j: nat)
    requires (g, j) in {(InstanceKey("a", 2, 0.03), 1), (InstanceKey("b", 2, 0.03), 3)}
    ensures g in InstanceKeys(MISALIGNED) && BestRow(MISALIGNED, g) == MISALIGNED[j]
  {
    var m := MISALIGNED;
    forall x | x in m && IKey(x) == g && x != m[j] ensures m[j].quality < x.quality {
      var k :| 0 <= k < |m| && m[k] == x;
    }
    BestRowIs(m, g, m[j]);
  }

  /** The best row of a group is its strictly best row, when it has one. */
  lemma BestRowIs(rows: seq<Row>, g: InstanceKey, lo: Row)
    requires lo in rows && IKey(lo) == g
    requires forall x :: x in rows && IKey(x) == g && x != lo ==> lo.quality < x.quality
    ensures g in InstanceKeys(rows) && BestRow(rows, g) == lo
  {
    var i :| 0 <= i < |rows| && rows[i] == lo;
  }

  /** The winners of a table with two instance groups. */
  lemma WinnersOfTwo(rows: seq<Row>, a: InstanceKey, b: InstanceKey)
    requires InstanceKeys(rows) == [a, b]
    ensures Winners(rows) == [AKey(BestRow(rows, a)), AKey(BestRow(rows, b))]
  {
  }

  /** The counts of a table with algorithms [x, y] where y wins both of
      two groups. */
  lemma CountsOfTwo(rows: seq<Row>, x: AlgorithmKey, y: AlgorithmKey)
    requires Winners(rows) == [y, y] && AlgorithmKeys(rows) == [x, y] && x != y
    ensures Counts(rows, WinnersFirst) == [2, 0]
    ensures Map(BestPerInstanceCount(rows, WinnersFirst), CountName) == [y, x]
  {
    CountedOfTwo(rows, x, y);
    assert multiset(Winners(rows))[y] == 2 && multiset(Winners(rows))[x] == 0;
    CountEntriesOfTwo(rows, x, y);
    var b := BestPerInstanceCount(rows, WinnersFirst);
    MapOfTwo(b, CountValue);
    MapOfTwo(b, CountName);
  }

  lemma CountedOfTwo(rows: seq<Row>, x: AlgorithmKey, y: AlgorithmKey)
    requires Winners(rows) == [y, y] && AlgorithmKeys(rows) == [x, y] && x != y
    ensures CountedAlgorithms(rows, WinnersFirst) == [y, x]
  {
    var w := Winners(rows);
    DistinctOfTwo(w, y);
    FilterOfTwo(AlgorithmKeys(rows), a => a !in w, x, y);
  }

  lemma DistinctOfTwo(w: seq<AlgorithmKey>, y: AlgorithmKey)
    requires w == [y, y]
    ensures Distinct(w) == [y]
  {
    assert w[..1] == [y];
  }

  lemma FilterOfTwo(keys: seq<AlgorithmKey>, keep: AlgorithmKey -> bool, x: AlgorithmKey, y: AlgorithmKey)
    requires keys == [x, y] && keep(x) && !keep(y)
    ensures Filter(keys, keep) == [x]
  {
    assert keys[1..] == [y];
    assert keys[1..][1..] == [];
  }

  lemma CountEntriesOfTwo(rows: seq<Row>, x: AlgorithmKey, y: AlgorithmKey)
    requires CountedAlgorithms(rows, WinnersFirst) == [y, x]
    requires multiset(Winners(rows))[y] == 2 && multiset(Winners(rows))[x] == 0
    ensures BestPerInstanceCount(rows, WinnersFirst) == [(y, 2), (x, 0)]
  {
    CountEntryIs(rows, 0, 2);
    CountEntryIs(rows, 1, 0);
    SeqOfTwo(BestPerInstanceCount(rows, WinnersFirst), (y, 2), (x, 0));
  }

  /** Entry `i` of the counts is its algorithm with that algorithm's
      number of wins. */
  lemma CountEntryIs(rows: seq<Row>, i: nat, n: int)
    requires i < |CountedAlgorithms(rows, WinnersFirst)|
    requires multiset(Winners(rows))[CountedAlgorithms(rows, WinnersFirst)[i]] == n
    ensures BestPerInstanceCount(rows, WinnersFirst)[i] == (CountedAlgorithms(rows, WinnersFirst)[i], n)
  {
    WinnersCount(rows, CountedAlgorithms(rows, WinnersFirst)[i]);
  }

  lemma SeqOfTwo<T>(b: seq<T>, p: T, q: T)
    requires |b| == 2 && b[0] == p && b[1] == q
    ensures b == [p, q]
  {
  }

  lemma MapOfTwo<T, U>(s: seq<T>, f: T -> U)
    requires |s| == 2
    ensures Map(s, f) == [f(s[0]), f(s[1])]
  {
    assert s[1..][1..] == [];
  }

  /** A table whose algorithms appear as [x, y] and whose two instance
      groups are both won by "y": the first-appearance list is [x, y] and
      sorted, the stored counts are [2, 0] (for [y, x]) and "x" wins
      nothing. */
  lemma ListOfShape(rows: seq<Row>)
    requires ThreadsFitU32(rows)
    requires AlgorithmKeys(rows) == [AlgorithmKey("x", 1), AlgorithmKey("y", 1)]
    requires Winners(rows) == [AlgorithmKey("y", 1), AlgorithmKey("y", 1)]
    ensures AlgorithmListAsWritten(rows) == [Algorithm("x", 1), Algorithm("y", 1)]
    ensures AdjacentSorted(AlgorithmListAsWritten(rows), AlgorithmLe)
    ensures Counts(rows, WinnersFirst) == [2, 0]
    ensures Wins(rows, Algorithm("x", 1)) == 0 && Wins(rows, Algorithm("y", 1)) == 2
  {
    ListOfKeys(rows);
    CountsOfTwo(rows, AlgorithmKey("x", 1), AlgorithmKey("y", 1));
    WinsOfShape(rows);
  }

  lemma ListOfKeys(rows: seq<Row>)
    requires AlgorithmKeys(rows) == [AlgorithmKey("x", 1), AlgorithmKey("y", 1)]
    ensures AlgorithmListAsWritten(rows) == [Algorithm("x", 1), Algorithm("y", 1)]
    ensures AdjacentSorted(AlgorithmListAsWritten(rows), AlgorithmLe)
  {
    SeqOfTwo(AlgorithmListAsWritten(rows), Algorithm("x", 1), Algorithm("y", 1));
    assert StrLe("x", "y");
  }

  lemma WinsOfShape(rows: seq<Row>)
    requires ThreadsFitU32(rows)
    requires AlgorithmKeys(rows) == [AlgorithmKey("x", 1), AlgorithmKey("y", 1)]
    requires Winners(rows) == [AlgorithmKey("y", 1), AlgorithmKey("y", 1)]
    ensures Wins(rows, Algorithm("x", 1)) == 0 && Wins(rows, Algorithm("y", 1)) == 2
  {
    var x, y := AlgorithmKey("x", 1), AlgorithmKey("y", 1);
    MultisetOfTwo(Winners(rows), x, y);
    WinsIs(rows, x, 0);
    WinsIs(rows, y, 2);
    assert ToAlgorithm(x) == Algorithm("x", 1) && ToAlgorithm(y) == Algorithm("y", 1);
  }

  lemma MultisetOfTwo(w: seq<AlgorithmKey>, x: AlgorithmKey, y: AlgorithmKey)
    requires w == [y, y] && x != y
    ensures multiset(w)[y] == 2 && multiset(w)[x] == 0
  {
  }

  /** An algorithm's wins, read through the `u32` cast, are its
      occurrences among the winners. */
  lemma WinsIs(rows: seq<Row>, key: AlgorithmKey, n: int)
    requires ThreadsFitU32(rows) && key in AlgorithmKeys(rows)
    requires multiset(Winners(rows))[key] == n
    ensures Wins(rows, ToAlgorithm(key)) == n
  {
    WinsOfKey(rows, key);
    WinnersCount(rows, key);
  }

  lemma AlignedOfShape(rows: seq<Row>)
    requires AlgorithmListAsWritten(rows) == [Algorithm("x", 1), Algorithm("y", 1)]
    requires Wins(rows, Algorithm("x", 1)) == 0 && Wins(rows, Algorithm("y", 1)) == 2
    ensures AlignedCounts(rows, AlgorithmListAsWritten(rows)) == [0, 2]
  {
    var list := AlgorithmListAsWritten(rows);
    SeqOfTwo(AlignedCounts(rows, list), 0, 2);
  }

  /** On a table whose algorithms appear as [x, y] and whose two instance
      groups are both won by "y" (`MISALIGNED` is one, see
      `MisalignedShape`), with the join emitting the winners first, the
      algorithm list passes the sortedness assertion of `Data::new`, yet
      the counts it stores, [2, 0], are for
      [y, x] while its algorithm list is [x, y]: "x", best nowhere, is
      paired with 2 and "y", best everywhere, with 0, so `get_b_start`
      warm-starts "x" with all four cores (`WarmStartOfTwo`). */
  lemma CountsMisalignedAsWritten(rows: seq<Row>)
    requires ThreadsFitU32(rows)
    requires AlgorithmKeys(rows) == [AlgorithmKey("x", 1), AlgorithmKey("y", 1)]
    requires Winners(rows) == [AlgorithmKey("y", 1), AlgorithmKey("y", 1)]
    ensures AlgorithmListAsWritten(rows) == [Algorithm("x", 1), Algorithm("y", 1)]
    ensures AdjacentSorted(AlgorithmListAsWritten(rows), AlgorithmLe)
    ensures Counts(rows, WinnersFirst) == [2, 0]
    ensures Wins(rows, Algorithm("x", 1)) == 0 && Wins(rows, Algorithm("y", 1)) == 2
    ensures Counts(rows, WinnersFirst)[0] != Wins(rows, AlgorithmListAsWritten(rows)[0])
  {
    ListOfShape(rows);
  }

  /** With the counts aligned to the list, "x" is paired with 0 and "y"
      with 2, so the four cores go to "y" (`WarmStartOfTwo`). */
  lemma CountsAlignedExample(rows: seq<Row>)
    requires ThreadsFitU32(rows)
    requires AlgorithmKeys(rows) == [AlgorithmKey("x", 1), AlgorithmKey("y", 1)]
    requires Winners(rows) == [AlgorithmKey("y", 1), AlgorithmKey("y", 1)]
    ensures AlignedCounts(rows, AlgorithmListAsWritten(rows)) == [0, 2]
  {
    ListOfShape(rows);
    AlignedOfShape(rows);
  }

  /** With the join in the row order of `algorithm_series` the same table
      gives the counts [0, 2] for [x, y]: aligned. */
  lemma CountsSeriesOrderExample(rows: seq<Row>)
    requires ThreadsFitU32(rows)
    requires AlgorithmKeys(rows) == [AlgorithmKey("x", 1), AlgorithmKey("y", 1)]
    requires Winners(rows) == [AlgorithmKey("y", 1), AlgorithmKey("y", 1)]
    ensures Counts(rows, SeriesOrder) == [0, 2]
  {
    CountsAlignedExample(rows);
    SeriesOrderAligned(rows);
  }

  /** `MISALIGNED` is sorted and valid for one core, so the row assertions
      of `Data::new` pass, and it has the shape of the two lemmas above. */
  lemma MisalignedShape()
    ensures SortedBy(MISALIGNED, RowLe) && forall x :: x in MISALIGNED ==> IsValid(x, 1)
    ensures ThreadsFitU32(MISALIGNED)
    ensures AlgorithmKeys(MISALIGNED) == [AlgorithmKey("x", 1), AlgorithmKey("y", 1)]
    ensures Winners(MISALIGNED) == [AlgorithmKey("y", 1), AlgorithmKey("y", 1)]
  {
    MisalignedSorted();
    MisalignedKeys();
    MisalignedWinners();
  }

  /** `get_b_start` for two single-threaded algorithms, two instances and
      four cores: a count of 2 gives 4 replicas, a count of 0 none. */
  lemma WarmStartOfTwo(counts: seq<int>, algorithms: seq<Algorithm>)
    requires algorithms == [Algorithm("x", 1), Algorithm("y", 1)]
    requires counts == [2, 0] || counts == [0, 2]
    ensures counts == [2, 0] ==> Solver.BStart(counts, algorithms, 2, 4) == [4, 0]
    ensures counts == [0, 2] ==> Solver.BStart(counts, algorithms, 2, 4) == [0, 4]
  {
    assert Solver.BStartValue(2, 1, 2, 4) == 4 by {
      assert Solver.Share(2, 2) == 1.0;
      assert Solver.CoreShare(2, 2, 4) == 4;
      assert (4 as real / 1 as real + 0.5).Floor == 4;
    }
    assert Solver.BStartValue(0, 1, 2, 4) == 0 by {
      assert Solver.Share(0, 2) == 0.0;
      assert Solver.CoreShare(0, 2, 4) == 0;
      assert (0 as real / 1 as real + 0.5).Floor == 0;
    }
  }
}
