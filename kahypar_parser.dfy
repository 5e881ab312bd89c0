/** The Mt-KaHyPar benchmark reader (`parse_hypergraph_dataframe`): every
    result file is read with all ten columns, or failing that without
    `num_threads`; rows with too many threads are dropped, graph names
    repaired, near-zero `km1` values remapped, the rows optionally joined
    with the desired instances, and projected onto the columns the
    portfolio simulator consumes. Polars' lazy frames are modelled as a
    `Plan` that either holds its rows or is broken by a reference to a
    column the frame does not have; the breakage surfaces on `Collect`. */
module KahyparParser {
  import opened Wrappers
  import opened Seqs
  import opened Text
  import opened CsvUtils
  import opened CsvParser
  import opened Simulator
  import Datastructures

  /** A row of the parsed frame: the columns selected at the end of
      `read_df`. */
  datatype HgRow = HgRow(instance: string, algorithm: string, threads: int, quality: real, time: real, valid: bool)

  /** A lazy frame: its rows once collected, or an unresolvable column. */
  datatype Plan = Frame(rows: seq<HgRow>) | Broken(column: string)

  /** The `collect()` a caller applies to the returned plan: a frame
      yields its rows, and a plan naming a missing column fails. */
  function Collect(p: Plan): (r: Result<seq<HgRow>, string>)
    ensures r.Ok? <==> p.Frame?
    ensures p.Frame? ==> r.value == p.rows
  {
    match p
    case Frame(rows) => Ok(rows)
    case Broken(c) => Err("column not found: " + c)
  }

  // ---------------------------------------------------------------------
  // Config::from_cli

  /** The reader's configuration has the same fields and the same
      command-line rules as the solver's (`Datastructures.Merged`): each
      option given replaces the file's value, each option absent keeps it,
      and a resulting slowdown ratio of zero means `u32::MAX`. */
  lemma FromCliFields(v: Datastructures.ConfigValues, a: Datastructures.Args)
    ensures var m := Datastructures.Merged(v, a);
      && m.files == (if a.files.Some? then a.files.value else v.files)
      && m.graphs == (if a.graphs.Some? then a.graphs.value else v.graphs)
      && m.ks == (if a.ks.Some? then a.ks.value else v.ks)
      && m.thresholds == (if a.thresholds.Some? then a.thresholds.value else v.thresholds)
      && m.numCores == (if a.numCores.Some? then a.numCores.value else v.numCores)
      && m.numSeeds == (if a.numSeeds.Some? then a.numSeeds.value else v.numSeeds)
      && m.outDir == (if a.outDir.Some? then a.outDir.value else v.outDir)
      && m.timeout == (if a.timeout.Some? then a.timeout.value else v.timeout)
    ensures var ratio := if a.slowdownRatio.Some? then a.slowdownRatio.value else v.slowdownRatio;
      Datastructures.Merged(v, a).slowdownRatio == if ratio == 0.0 then Datastructures.U32_MAX_F64 else ratio
  {
  }

  // ---------------------------------------------------------------------
  // The desired instances: graphs × ks × epsilons

  /** A join key: (graph, k, epsilon). */
  datatype Triple = Triple(graph: string, k: int, epsilon: real)

  function KeyOf(r: RawRow): Triple {
    Triple(r.graph, r.k, r.epsilon)
  }

  /** The filter argument: the graphs file as read, the ks and the
      feasibility thresholds. */
  datatype InstanceFilter = InstanceFilter(graphs: GraphsCsv, ks: seq<int>, thresholds: seq<real>)

  function EpsTriples(g: string, k: int, eps: seq<real>): seq<Triple> {
    if eps == [] then [] else [Triple(g, k, eps[0])] + EpsTriples(g, k, eps[1..])
  }

  function KTriples(g: string, ks: seq<int>, eps: seq<real>): seq<Triple> {
    if ks == [] then [] else EpsTriples(g, ks[0], eps) + KTriples(g, ks[1..], eps)
  }

  /** The cross join graphs × ks × epsilons, graph-major. */
  function CrossJoin(names: seq<string>, ks: seq<int>, eps: seq<real>): seq<Triple> {
    if names == [] then [] else KTriples(names[0], ks, eps) + CrossJoin(names[1..], ks, eps)
  }

  /** How often a key occurs in graphs × ks × epsilons. */
  function Multiplicity(t: Triple, names: seq<string>, ks: seq<int>, eps: seq<real>): nat {
    multiset(names)[t.graph] * multiset(ks)[t.k] * multiset(eps)[t.epsilon]
  }

  lemma {:induction false} EpsTriplesCount(g: string, k: int, eps: seq<real>, t: Triple)
    ensures multiset(EpsTriples(g, k, eps))[t] == if t.graph == g && t.k == k then multiset(eps)[t.epsilon] else 0
  {
    if eps != [] {
      EpsTriplesCount(g, k, eps[1..], t);
      assert eps == [eps[0]] + eps[1..];
    }
  }

  lemma Distribute(a: nat, b: nat, c: nat)
    ensures (a + b) * c == a * c + b * c
  {
  }

  /** Counting a head-and-tail split: the products add up. */
  lemma SumOfProducts(here: nat, there: nat, head: nat, rest: nat, a: nat)
    requires here == head * a && there == rest * a
    ensures here + there == (head + rest) * a
  {
  }

  lemma KTriplesSplit(g: string, ks: seq<int>, eps: seq<real>, t: Triple)
    requires ks != []
    ensures multiset(KTriples(g, ks, eps))[t]
         == multiset(EpsTriples(g, ks[0], eps))[t] + multiset(KTriples(g, ks[1..], eps))[t]
  {
  }

  lemma HeadCount(ks: seq<int>, x: int)
    requires ks != []
    ensures multiset(ks)[x] == (if ks[0] == x then 1 else 0) + multiset(ks[1..])[x]
  {
    assert ks == [ks[0]] + ks[1..];
  }

  lemma {:induction false} KTriplesCount(g: string, ks: seq<int>, eps: seq<real>, t: Triple)
    ensures multiset(KTriples(g, ks, eps))[t] == if t.graph == g then multiset(ks)[t.k] * multiset(eps)[t.epsilon] else 0
  {
    if ks != [] {
      KTriplesSplit(g, ks, eps, t);
      KTriplesCount(g, ks[1..], eps, t);
      EpsTriplesCount(g, ks[0], eps, t);
      if t.graph == g {
        HeadCount(ks, t.k);
        var head: nat := if ks[0] == t.k then 1 else 0;
        SumOfProducts(multiset(EpsTriples(g, ks[0], eps))[t], multiset(KTriples(g, ks[1..], eps))[t],
                      head, multiset(ks[1..])[t.k], multiset(eps)[t.epsilon]);
      }
    }
  }

  /** Every key occurs in the cross join as often as the product of its
      parts' counts. */
  lemma {:induction false} CrossJoinCount(names: seq<string>, ks: seq<int>, eps: seq<real>, t: Triple)
    ensures multiset(CrossJoin(names, ks, eps))[t] == Multiplicity(t, names, ks, eps)
  {
    if names != [] {
      var m := multiset(CrossJoin(names, ks, eps))[t];
      var kt := multiset(KTriples(names[0], ks, eps))[t];
      var rt := multiset(CrossJoin(names[1..], ks, eps))[t];
      assert m == kt + rt;
      CrossJoinCount(names[1..], ks, eps, t);
      KTriplesCount(names[0], ks, eps, t);
      MultiplicityStep(t, names, ks, eps);
    }
  }

  /** Peeling the first graph off the multiplicity. */
  lemma MultiplicityStep(t: Triple, names: seq<string>, ks: seq<int>, eps: seq<real>)
    requires names != []
    ensures Multiplicity(t, names, ks, eps) ==
      (if names[0] == t.graph then multiset(ks)[t.k] * multiset(eps)[t.epsilon] else 0) + Multiplicity(t, names[1..], ks, eps)
  {
    var a := multiset(ks)[t.k];
    var b := multiset(eps)[t.epsilon];
    var head: nat := if names[0] == t.graph then 1 else 0;
    var rest := multiset(names[1..])[t.graph];
    assert names == [names[0]] + names[1..];
    assert multiset(names)[t.graph] == head + rest;
    ProductStep(head, rest, a, b);
  }

  lemma ProductStep(head: nat, rest: nat, a: nat, b: nat)
    ensures (head + rest) * a * b == head * (a * b) + rest * a * b
  {
    calc {
      (head + rest) * a * b;
      == { Distribute(head, rest, a); }
      (head * a + rest * a) * b;
      == { Distribute(head * a, rest * a, b); }
      head * a * b + rest * a * b;
    }
  }

  /** `get_desired_instances`: the cross join of the graphs file with the ks
      and the thresholds; an absent or unparsable graphs file is an error. */
  function DesiredInstances(f: InstanceFilter): (r: Result<seq<Triple>, string>)
    ensures r.Err? <==> !f.graphs.Graphs?
    ensures f.graphs.NotFound? ==> r == Err("No graph file")
    ensures r.Ok? ==> forall t :: multiset(r.value)[t] == Multiplicity(t, f.graphs.names, f.ks, f.thresholds)
  {
    match f.graphs
    case NotFound => Err("No graph file")
    case Malformed => Err("Failed to read graph file")
    case Graphs(names) =>
      var r := CrossJoin(names, f.ks, f.thresholds);
      assert forall t :: multiset(r)[t] == Multiplicity(t, names, f.ks, f.thresholds) by {
        forall t ensures multiset(r)[t] == Multiplicity(t, names, f.ks, f.thresholds) {
          CrossJoinCount(names, f.ks, f.thresholds, t);
        }
      }
      Ok(r)
  }

  /** The inner join on (graph, k, epsilon): each row once per matching
      key, in row order. */
  function JoinInstances(rows: seq<RawRow>, keys: seq<Triple>): seq<RawRow> {
    if rows == [] then [] else Repeat(rows[0], multiset(keys)[KeyOf(rows[0])]) + JoinInstances(rows[1..], keys)
  }

  lemma {:induction false} RepeatCount<T>(x: T, n: nat, y: T)
    ensures multiset(Repeat(x, n))[y] == if x == y then n else 0
  {
    if n > 0 {
      assert Repeat(x, n) == Repeat(x, n - 1) + [x];
      RepeatCount(x, n - 1, y);
    } else {
      assert Repeat(x, n) == [];
    }
  }

  /** The join keeps a row as often as it occurs times how often its key
      occurs. */
  lemma {:induction false} JoinInstancesCount(rows: seq<RawRow>, keys: seq<Triple>, x: RawRow)
    ensures multiset(JoinInstances(rows, keys))[x] == multiset(rows)[x] * multiset(keys)[KeyOf(x)]
  {
    if rows != [] {
      JoinInstancesCount(rows[1..], keys, x);
      RepeatCount(rows[0], multiset(keys)[KeyOf(rows[0])], x);
      assert rows == [rows[0]] + rows[1..];
      var head: nat := if rows[0] == x then 1 else 0;
      assert multiset(rows)[x] == head + multiset(rows[1..])[x];
      Distribute(head, multiset(rows[1..])[x], multiset(keys)[KeyOf(x)]);
    }
  }

  predicate Desired(r: RawRow, names: seq<string>, ks: seq<int>, eps: seq<real>) {
    r.graph in names && r.k in ks && r.epsilon in eps
  }

  /** With duplicate-free graphs, ks and thresholds the join keeps exactly
      the desired rows, once each, in order. */
  lemma {:induction false} JoinCrossIsFilter(rows: seq<RawRow>, names: seq<string>, ks: seq<int>, eps: seq<real>)
    requires NoDup(names) && NoDup(ks) && NoDup(eps)
    ensures JoinInstances(rows, CrossJoin(names, ks, eps)) == Filter(rows, (r: RawRow) => Desired(r, names, ks, eps))
  {
    if rows != [] {
      var keys := CrossJoin(names, ks, eps);
      var keep := (r: RawRow) => Desired(r, names, ks, eps);
      JoinCrossIsFilter(rows[1..], names, ks, eps);
      var r := rows[0];
      CrossJoinHead(r, names, ks, eps);
      assert Repeat(r, multiset(keys)[KeyOf(r)]) == if keep(r) then [r] else [];
    }
  }

  /** A row's key occurs once in the cross join of duplicate-free lists
      when the row is desired, and not at all otherwise. */
  lemma CrossJoinHead(r: RawRow, names: seq<string>, ks: seq<int>, eps: seq<real>)
    requires NoDup(names) && NoDup(ks) && NoDup(eps)
    ensures multiset(CrossJoin(names, ks, eps))[KeyOf(r)] == if Desired(r, names, ks, eps) then 1 else 0
  {
    CrossJoinCount(names, ks, eps, KeyOf(r));
    CountOfNoDup(names, r.graph);
    CountOfNoDup(ks, r.k);
    CountOfNoDup(eps, r.epsilon);
    FlagProduct(multiset(names)[r.graph], multiset(ks)[r.k], multiset(eps)[r.epsilon]);
  }

  lemma FlagProduct(x: nat, y: nat, z: nat)
    requires x <= 1 && y <= 1 && z <= 1
    ensures x * y * z == if x == 1 && y == 1 && z == 1 then 1 else 0
  {
    if x == 0 {
      assert x * y == 0;
    } else if y == 0 {
      assert x * y == 0;
    } else {
      assert x * y == 1;
    }
  }

  /** The `desired_instances` step of `read_df`: no filter, or a graphs
      file that cannot be read, keeps every row; otherwise the inner join. */
  function ApplyInstanceFilter(rows: seq<RawRow>, filter: Option<InstanceFilter>): (r: seq<RawRow>)
    ensures filter.None? || !filter.value.graphs.Graphs? ==> r == rows
    ensures filter.Some? && filter.value.graphs.Graphs? ==> forall x ::
      multiset(r)[x] == multiset(rows)[x] * Multiplicity(KeyOf(x), filter.value.graphs.names, filter.value.ks, filter.value.thresholds)
  {
    match filter
    case None => rows
    case Some(f) =>
      match DesiredInstances(f)
      case Err(_) => rows
      case Ok(keys) =>
        var r := JoinInstances(rows, keys);
        JoinCount(rows, f, keys);
        r
  }

  lemma JoinCount(rows: seq<RawRow>, f: InstanceFilter, keys: seq<Triple>)
    requires f.graphs.Graphs? && DesiredInstances(f) == Ok(keys)
    ensures forall x :: multiset(JoinInstances(rows, keys))[x] == multiset(rows)[x] * Multiplicity(KeyOf(x), f.graphs.names, f.ks, f.thresholds)
  {
    forall x
      ensures multiset(JoinInstances(rows, keys))[x] == multiset(rows)[x] * Multiplicity(KeyOf(x), f.graphs.names, f.ks, f.thresholds)
    {
      JoinInstancesCount(rows, keys, x);
      assert multiset(keys)[KeyOf(x)] == Multiplicity(KeyOf(x), f.graphs.names, f.ks, f.thresholds);
    }
  }

  /** With a readable graphs file and duplicate-free lists, the filter
      keeps exactly the rows whose graph, k and epsilon are all listed. */
  lemma ApplyInstanceFilterIsFilter(rows: seq<RawRow>, f: InstanceFilter)
    requires f.graphs.Graphs? && NoDup(f.graphs.names) && NoDup(f.ks) && NoDup(f.thresholds)
    ensures ApplyInstanceFilter(rows, Some(f)) == Filter(rows, (r: RawRow) => Desired(r, f.graphs.names, f.ks, f.thresholds))
  {
    JoinCrossIsFilter(rows, f.graphs.names, f.ks, f.thresholds);
  }

  // ---------------------------------------------------------------------
  // read_df

  /** The thread count a record is filtered and reported with: the file's
      own, or the literal 1 of the corrected fallback read. */
  function Threads(r: RawRow, withThreads: bool): int {
    if withThreads then r.numThreads else 1
  }

  /** The `with_columns` step: graph name repaired, `km1` remapped. */
  function Normalise(r: RawRow, threads: int): (n: RawRow)
    ensures n.numThreads == threads && n.graph == FixInstanceName(r.graph) && n.km1 == RemapQuality(r.km1)
    ensures n.k == r.k && n.epsilon == r.epsilon && n.imbalance == r.imbalance
    ensures n.algorithm == r.algorithm && n.totalPartitionTime == r.totalPartitionTime
    ensures n.failed == r.failed && n.timeout == r.timeout
  {
    r.(numThreads := threads, graph := FixInstanceName(r.graph), km1 := RemapQuality(r.km1))
  }

  /** The reader's own copy of the name repair: a normalised graph name
      never ends in `scotch`, a name that did not end in it is kept, and
      normalising again leaves the name as it is. */
  lemma NormaliseGraphName(r: RawRow, threads: int)
    ensures !EndsWith(Normalise(r, threads).graph, "scotch")
    ensures !EndsWith(r.graph, "scotch") ==> Normalise(r, threads).graph == r.graph
    ensures EndsWith(r.graph, "scotch") ==> EndsWith(Normalise(r, threads).graph, "graph")
    ensures Normalise(Normalise(r, threads), threads).graph == Normalise(r, threads).graph
    ensures EndsWith(r.graph, "scotch") ==> !Occurs(Normalise(r, threads).graph, "scotch")
    ensures EndsWith(r.graph, "scotch") ==>
      Normalise(r, threads).graph == ReplaceAll(r.graph[..|r.graph| - 6], "scotch", "graph") + "graph"
  {
    FixInstanceNameIdempotent(r.graph);
  }

  /** The filter on the thread count followed by `with_columns`. */
  function Prepare(records: seq<RawRow>, withThreads: bool, numCores: nat): seq<RawRow> {
    Map(Filter(records, (r: RawRow) => Threads(r, withThreads) <= numCores),
      (r: RawRow) => Normalise(r, Threads(r, withThreads)))
  }

  /** A run is valid when it is balanced, did not fail and did not time
      out. */
  predicate IsValid(r: RawRow) {
    r.imbalance <= r.epsilon && r.failed == "no" && r.timeout == "no"
  }

  /** The instance key: graph, k and epsilon written one after the other
      with no separator; `fmt` is polars' rendering of a float. */
  function InstanceName(r: RawRow, fmt: real -> string): (s: string)
    ensures |s| > |r.graph| && s[..|r.graph|] == r.graph
  {
    r.graph + IntToString(r.k) + fmt(r.epsilon)
  }

  /** The final `select`. */
  function SelectRow(r: RawRow, fmt: real -> string): HgRow {
    HgRow(InstanceName(r, fmt), r.algorithm, r.numThreads, r.km1, r.totalPartitionTime, IsValid(r))
  }

  /** The rows one read of a file yields once collected. */
  function FileRows(records: seq<RawRow>, withThreads: bool, filter: Option<InstanceFilter>, numCores: nat, fmt: real -> string)
    : seq<HgRow>
  {
    Map(ApplyInstanceFilter(Prepare(records, withThreads, numCores), filter), (r: RawRow) => SelectRow(r, fmt))
  }

  /** The instance join only keeps rows it was given. */
  lemma ApplyInstanceFilterMember(rows: seq<RawRow>, filter: Option<InstanceFilter>, n: RawRow)
    requires n in ApplyInstanceFilter(rows, filter)
    ensures n in rows
  {
    var joined := ApplyInstanceFilter(rows, filter);
    assert multiset(joined)[n] > 0;
    if filter.Some? && filter.value.graphs.Graphs? {
      assert multiset(rows)[n] > 0;
    }
  }

  /** A prepared row is a normalised record that passed the thread filter. */
  lemma PrepareProvenance(records: seq<RawRow>, withThreads: bool, numCores: nat, n: RawRow)
    requires n in Prepare(records, withThreads, numCores)
    ensures exists r :: r in records && Threads(r, withThreads) <= numCores && n == Normalise(r, Threads(r, withThreads))
  {
    var kept := Filter(records, (r: RawRow) => Threads(r, withThreads) <= numCores);
    MapPreimage(kept, (r: RawRow) => Normalise(r, Threads(r, withThreads)), n);
  }

  /** Every row read comes from a record of the file that passed the thread
      filter, and carries that record's repaired key, remapped quality,
      time and validity. */
  lemma FileRowsProvenance(records: seq<RawRow>, withThreads: bool, filter: Option<InstanceFilter>, numCores: nat,
                           fmt: real -> string, x: HgRow)
    requires x in FileRows(records, withThreads, filter, numCores, fmt)
    ensures exists r :: r in records && Threads(r, withThreads) <= numCores && x == SelectRow(Normalise(r, Threads(r, withThreads)), fmt)
  {
    var prepared := Prepare(records, withThreads, numCores);
    var joined := ApplyInstanceFilter(prepared, filter);
    MapPreimage(joined, (r: RawRow) => SelectRow(r, fmt), x);
    var n :| n in joined && x == SelectRow(n, fmt);
    ApplyInstanceFilterMember(prepared, filter, n);
    PrepareProvenance(records, withThreads, numCores, n);
  }

  /** What a row read means: at most `numCores` threads, a quality away
      from zero, a key beginning with the repaired graph name, and the
      validity rule. */
  lemma FileRowFacts(records: seq<RawRow>, withThreads: bool, filter: Option<InstanceFilter>, numCores: nat,
                     fmt: real -> string, x: HgRow)
    requires x in FileRows(records, withThreads, filter, numCores, fmt)
    ensures x.threads <= numCores && Abs(x.quality) >= EPSILON
    ensures exists r :: (r in records && x.instance == FixInstanceName(r.graph) + IntToString(r.k) + fmt(r.epsilon)
      && x.quality == RemapQuality(r.km1) && x.time == r.totalPartitionTime && x.algorithm == r.algorithm
      && (x.valid <==> r.imbalance <= r.epsilon && r.failed == "no" && r.timeout == "no"))
  {
    FileRowsProvenance(records, withThreads, filter, numCores, fmt, x);
    var r :| r in records && Threads(r, withThreads) <= numCores && x == SelectRow(Normalise(r, Threads(r, withThreads)), fmt);
  }

  /** Without an instance filter every record within the core count is
      kept, in file order. */
  lemma FileRowsUnfiltered(records: seq<RawRow>, withThreads: bool, filter: Option<InstanceFilter>, numCores: nat, fmt: real -> string)
    requires filter.None? || !filter.value.graphs.Graphs?
    ensures FileRows(records, withThreads, filter, numCores, fmt) ==
      Map(Filter(records, (r: RawRow) => Threads(r, withThreads) <= numCores),
        (r: RawRow) => SelectRow(Normalise(r, Threads(r, withThreads)), fmt))
  {
  }

  /** `read_df` as written: a file that is absent or lacks a requested
      column fails; otherwise the plan, which refers to `num_threads` in its
      filter and its selection and is therefore broken when that column
      was not requested. */
  function ReadDf(f: CsvFile, fields: seq<string>, filter: Option<InstanceFilter>, numCores: nat, fmt: real -> string)
    : (r: Result<Plan, string>)
    ensures r.Err? <==> f.Missing? || !HasColumns(f.header, fields)
    ensures r.Ok? ==> (r.value.Broken? <==> "num_threads" !in fields)
  {
    match f
    case Missing => Err("No such file or directory")
    case Csv(header, records) =>
      if !HasColumns(header, fields) then Err("missing column")
      else if "num_threads" !in fields then Ok(Broken("num_threads"))
      else Ok(Frame(FileRows(records, true, filter, numCores, fmt)))
  }

  /** `with_column(lit(1).alias("num_threads"))` on a plan. */
  function WithThreadsOne(p: Plan): (q: Plan)
    ensures q.Broken? <==> p.Broken?
    ensures q.Frame? ==> |q.rows| == |p.rows| && forall i :: 0 <= i < |q.rows| ==> q.rows[i] == p.rows[i].(threads := 1)
  {
    match p
    case Frame(rows) => Frame(Map(rows, (x: HgRow) => x.(threads := 1)))
    case Broken(c) => Broken(c)
  }

  /** A file whose header lacks `num_threads` but has the other columns:
      the one the fallback read is for. */
  predicate NeedsFallback(f: CsvFile) {
    f.Csv? && !HasColumns(f.header, KAHYPAR_COLUMNS) && HasColumns(f.header, FIXED_COLUMNS)
  }

  /** One path of `parse_hypergraph_dataframe` as written: the full read,
      else the fallback read with the thread column added afterwards. */
  function ReadPathAsWritten(f: CsvFile, filter: Option<InstanceFilter>, numCores: nat, fmt: real -> string)
    : (r: Result<Plan, string>)
    ensures r.Err? <==> f.Missing? || !HasColumns(f.header, FIXED_COLUMNS)
    ensures r.Ok? ==> (r.value.Broken? <==> NeedsFallback(f))
  {
    FixedColumnsSubset();
    FixedColumnsNoThreads();
    assert "num_threads" in KAHYPAR_COLUMNS;
    match ReadDf(f, KAHYPAR_COLUMNS, filter, numCores, fmt)
    case Ok(p) => Ok(p)
    case Err(_) =>
      match ReadDf(f, FIXED_COLUMNS, filter, numCores, fmt)
      case Ok(p) => Ok(WithThreadsOne(p))
      case Err(e) => Err(e)
  }

  /** polars' `concat` of lazy frames: broken when any input is. */
  function ConcatPlans(plans: seq<Plan>): (p: Plan)
    ensures p.Broken? <==> exists i :: 0 <= i < |plans| && plans[i].Broken?
    ensures p.Frame? ==> p.rows == Flatten(Map(plans, (q: Plan) => if q.Frame? then q.rows else []))
  {
    if plans == [] then Frame([])
    else
      assert forall i :: 1 <= i < |plans| ==> plans[i] == plans[1..][i - 1];
      if plans[0].Broken? then plans[0]
      else
        match ConcatPlans(plans[1..])
        case Broken(c) => Broken(c)
        case Frame(rows) =>
          var body := (q: Plan) => if q.Frame? then q.rows else [];
          assert Map(plans, body) == [plans[0].rows] + Map(plans[1..], body);
          Frame(plans[0].rows + rows)
  }

  /** `parse_hypergraph_dataframe` as written: unreadable paths are
      skipped, no readable path is an error, the rest are concatenated. */
  function ParseHypergraphAsWritten(files: seq<CsvFile>, filter: Option<InstanceFilter>, numCores: nat, fmt: real -> string)
    : (r: Result<Plan, string>)
    ensures r.Err? ==> r.error == "Failed to parse data frames"
  {
    var plans := OkValues(Map(files, (f: CsvFile) => ReadPathAsWritten(f, filter, numCores, fmt)));
    if plans == [] then Err("Failed to parse data frames") else Ok(ConcatPlans(plans))
  }

  /** The defect: as soon as one path needs the fallback read, the frame
      returned cannot be collected, so the rows of every file are lost. */
  lemma FallbackBreaksCollect(files: seq<CsvFile>, i: nat, filter: Option<InstanceFilter>, numCores: nat, fmt: real -> string)
    requires i < |files| && NeedsFallback(files[i])
    ensures ParseHypergraphAsWritten(files, filter, numCores, fmt).Ok?
    ensures Collect(ParseHypergraphAsWritten(files, filter, numCores, fmt).value).Err?
  {
    var results := Map(files, (f: CsvFile) => ReadPathAsWritten(f, filter, numCores, fmt));
    var p := results[i].value;
    assert p.Broken?;
    assert Ok(p) in results;
    var plans := OkValues(results);
    assert p in plans;
    var j :| 0 <= j < |plans| && plans[j] == p;
  }

  /** A concrete file that shows the defect: a header with every column but
      `num_threads`. */
  lemma FallbackExample(records: seq<RawRow>, fmt: real -> string)
    ensures Collect(ParseHypergraphAsWritten([Csv(FIXED_COLUMNS, records)], None, 8, fmt).value).Err?
  {
    FixedColumnsNoThreads();
    assert "num_threads" in KAHYPAR_COLUMNS;
    assert !HasColumns(FIXED_COLUMNS, KAHYPAR_COLUMNS);
    FallbackBreaksCollect([Csv(FIXED_COLUMNS, records)], 0, None, 8, fmt);
  }

  // ---------------------------------------------------------------------
  // The corrected reader

  /** One path with the fallback corrected: the thread column is set to 1
      before the filter on it, as the CSV reader of the main pipeline
      does. */
  function ReadPath(f: CsvFile, filter: Option<InstanceFilter>, numCores: nat, fmt: real -> string)
    : (r: Result<seq<HgRow>, string>)
    ensures r.Err? <==> f.Missing? || !HasColumns(f.header, FIXED_COLUMNS)
    ensures r.Ok? ==> r.value == FileRows(f.records, !NeedsFallback(f), filter, numCores, fmt)
  {
    FixedColumnsSubset();
    match f
    case Missing => Err("No such file or directory")
    case Csv(header, records) =>
      if HasColumns(header, KAHYPAR_COLUMNS) then Ok(FileRows(records, true, filter, numCores, fmt))
      else if HasColumns(header, FIXED_COLUMNS) then Ok(FileRows(records, false, filter, numCores, fmt))
      else Err("missing column")
  }

  /** `parse_hypergraph_dataframe`, corrected, with the frame collected. */
  function ParseHypergraph(files: seq<CsvFile>, filter: Option<InstanceFilter>, numCores: nat, fmt: real -> string)
    : (r: Result<seq<HgRow>, string>)
    ensures r.Err? ==> r.error == "Failed to parse data frames"
  {
    var frames := OkValues(Map(files, (f: CsvFile) => ReadPath(f, filter, numCores, fmt)));
    if frames == [] then Err("Failed to parse data frames") else Ok(Flatten(frames))
  }

  /** Unreadable paths are skipped: the result fails exactly when no path
      can be read. */
  lemma ParseHypergraphFails(files: seq<CsvFile>, filter: Option<InstanceFilter>, numCores: nat, fmt: real -> string)
    ensures ParseHypergraph(files, filter, numCores, fmt).Err? <==>
      forall i :: 0 <= i < |files| ==> files[i].Missing? || !HasColumns(files[i].header, FIXED_COLUMNS)
  {
    var results := Map(files, (f: CsvFile) => ReadPath(f, filter, numCores, fmt));
    var frames := OkValues(results);
    forall i | 0 <= i < |files| && results[i].Ok? ensures frames != [] {
      assert results[i] in results;
      assert results[i].value in frames;
    }
    if frames != [] {
      var x := frames[0];
      assert Ok(x) in results;
      var i :| 0 <= i < |results| && results[i] == Ok(x);
      assert !(files[i].Missing? || !HasColumns(files[i].header, FIXED_COLUMNS));
    }
  }

  /** A row of the result is a row read from one of the readable paths,
      and every row of every readable path is in the result. */
  lemma ParseHypergraphRows(files: seq<CsvFile>, filter: Option<InstanceFilter>, numCores: nat, fmt: real -> string, x: HgRow)
    requires ParseHypergraph(files, filter, numCores, fmt).Ok?
    ensures x in ParseHypergraph(files, filter, numCores, fmt).value <==>
      exists i :: 0 <= i < |files| && ReadPath(files[i], filter, numCores, fmt).Ok? && x in ReadPath(files[i], filter, numCores, fmt).value
  {
    var results := Map(files, (f: CsvFile) => ReadPath(f, filter, numCores, fmt));
    var frames := OkValues(results);
    FlattenMember(frames, x);
    if x in Flatten(frames) {
      var j :| 0 <= j < |frames| && x in frames[j];
      assert frames[j] in frames;
      var i :| 0 <= i < |results| && results[i] == Ok(frames[j]);
      assert ReadPath(files[i], filter, numCores, fmt).Ok? && x in ReadPath(files[i], filter, numCores, fmt).value;
    }
    if exists i :: 0 <= i < |files| && ReadPath(files[i], filter, numCores, fmt).Ok? && x in ReadPath(files[i], filter, numCores, fmt).value {
      var i :| 0 <= i < |files| && ReadPath(files[i], filter, numCores, fmt).Ok? && x in ReadPath(files[i], filter, numCores, fmt).value;
      assert results[i] in results;
      var v := results[i].value;
      assert v in frames;
      var j :| 0 <= j < |frames| && frames[j] == v;
    }
  }

  /** The thread filter and the quality remap hold for every parsed row. */
  lemma ParseHypergraphRowFacts(files: seq<CsvFile>, filter: Option<InstanceFilter>, numCores: nat, fmt: real -> string, x: HgRow)
    requires ParseHypergraph(files, filter, numCores, fmt).Ok?
    requires x in ParseHypergraph(files, filter, numCores, fmt).value
    ensures x.threads <= numCores && Abs(x.quality) >= EPSILON
  {
    ParseHypergraphRows(files, filter, numCores, fmt, x);
    var i :| 0 <= i < |files| && ReadPath(files[i], filter, numCores, fmt).Ok? && x in ReadPath(files[i], filter, numCores, fmt).value;
    FileRowFacts(files[i].records, !NeedsFallback(files[i]), filter, numCores, fmt, x);
  }

  /** The rows of a file read through the corrected fallback all report one
      thread, and with at least one core and no instance filter every
      record is kept. */
  lemma FallbackRowsKept(f: CsvFile, numCores: nat, fmt: real -> string)
    requires NeedsFallback(f) && numCores >= 1
    ensures ReadPath(f, None, numCores, fmt).Ok?
    ensures |ReadPath(f, None, numCores, fmt).value| == |f.records|
    ensures forall x :: x in ReadPath(f, None, numCores, fmt).value ==> x.threads == 1
  {
    var keep := (r: RawRow) => Threads(r, false) <= numCores;
    FilterAll(f.records, keep);
    FileRowsUnfiltered(f.records, false, None, numCores, fmt);
  }

  /** Where no path needs the fallback read, the reader as written and the
      corrected one agree. */
  lemma AsWrittenAgreesWithoutFallback(files: seq<CsvFile>, filter: Option<InstanceFilter>, numCores: nat, fmt: real -> string)
    requires forall i :: 0 <= i < |files| ==> !NeedsFallback(files[i])
    ensures ParseHypergraph(files, filter, numCores, fmt).Ok? <==> ParseHypergraphAsWritten(files, filter, numCores, fmt).Ok?
    ensures ParseHypergraph(files, filter, numCores, fmt).Ok? ==>
      ParseHypergraphAsWritten(files, filter, numCores, fmt).value == Frame(ParseHypergraph(files, filter, numCores, fmt).value)
  {
    var written := Map(files, (f: CsvFile) => ReadPathAsWritten(f, filter, numCores, fmt));
    var fixed := Map(files, (f: CsvFile) => ReadPath(f, filter, numCores, fmt));
    var toPlan := (r: Result<seq<HgRow>, string>) => if r.Ok? then Ok(Frame(r.value)) else Err(r.error);
    AgreeAt(files, filter, numCores, fmt);
    assert written == Map(fixed, toPlan);
    OkValuesFrames(fixed, toPlan);
    ConcatFrames(OkValues(fixed));
  }

  lemma AgreeAt(files: seq<CsvFile>, filter: Option<InstanceFilter>, numCores: nat, fmt: real -> string)
    requires forall i :: 0 <= i < |files| ==> !NeedsFallback(files[i])
    ensures forall i :: 0 <= i < |files| ==>
      ReadPathAsWritten(files[i], filter, numCores, fmt) ==
        (var r := ReadPath(files[i], filter, numCores, fmt); if r.Ok? then Ok(Frame(r.value)) else Err(r.error))
  {
    forall i | 0 <= i < |files|
      ensures ReadPathAsWritten(files[i], filter, numCores, fmt) ==
        (var r := ReadPath(files[i], filter, numCores, fmt); if r.Ok? then Ok(Frame(r.value)) else Err(r.error))
    {
      FixedColumnsSubset();
      assert "num_threads" in KAHYPAR_COLUMNS;
      var f := files[i];
      if f.Csv? && HasColumns(f.header, KAHYPAR_COLUMNS) {
        assert ReadDf(f, KAHYPAR_COLUMNS, filter, numCores, fmt) == Ok(Frame(FileRows(f.records, true, filter, numCores, fmt)));
      }
    }
  }

  /** Mapping every `Ok` to a frame commutes with `filter_map`. */
  lemma {:induction false} OkValuesFrames(rs: seq<Result<seq<HgRow>, string>>, toPlan: Result<seq<HgRow>, string> -> Result<Plan, string>)
    requires forall r :: toPlan(r) == if r.Ok? then Ok(Frame(r.value)) else Err(r.error)
    ensures OkValues(Map(rs, toPlan)) == Map(OkValues(rs), (rows: seq<HgRow>) => Frame(rows))
  {
    if rs != [] {
      var plans := Map(rs, toPlan);
      OkValuesFrames(rs[1..], toPlan);
      assert plans[1..] == Map(rs[1..], toPlan);
      OkValuesCons(plans);
      OkValuesCons(rs);
      var head := if rs[0].Ok? then [rs[0].value] else [];
      MapAppend(head, OkValues(rs[1..]), (rows: seq<HgRow>) => Frame(rows));
    }
  }

  lemma OkValuesCons<T(!new)>(rs: seq<Result<T, string>>)
    requires rs != []
    ensures OkValues(rs) == (if rs[0].Ok? then [rs[0].value] else []) + OkValues(rs[1..])
  {
  }

  /** Concatenating frames that all hold rows gives the frame of the
      concatenated rows. */
  lemma {:induction false} ConcatFrames(xs: seq<seq<HgRow>>)
    ensures ConcatPlans(Map(xs, (rows: seq<HgRow>) => Frame(rows))) == Frame(Flatten(xs))
  {
    if xs != [] {
      ConcatFrames(xs[1..]);
      var plans := Map(xs, (rows: seq<HgRow>) => Frame(rows));
      assert plans[1..] == Map(xs[1..], (rows: seq<HgRow>) => Frame(rows));
    }
  }

  // ---------------------------------------------------------------------
  // The instance key

  /** The key has no separator, so distinct (graph, k) pairs can collide. */
  lemma InstanceNameAmbiguous(base: RawRow, fmt: real -> string)
    ensures InstanceName(base.(graph := "g1", k := 23), fmt) == InstanceName(base.(graph := "g12", k := 3), fmt)
  {
    assert IntToString(23) == "23";
    assert IntToString(3) == "3";
    assert "g1" + "23" == "g12" + "3";
  }
}
