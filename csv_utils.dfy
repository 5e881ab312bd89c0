/** The relational steps that turn the benchmark table into solver input:
    instance-name repair, key extraction, per-instance best time, the
    sampled `e_min` table and its completion, the slowdown filter, the
    "times best" count and the desired-instance join. Every dataframe is a
    sequence of records; group-by, join and fill are written out. */
module CsvUtils {
  import opened Wrappers
  import opened Seqs
  import opened Text
  import opened Datastructures

  /** Key of an instance group: (instance, k, feasibility_threshold), with
      `k` as read from the file (`i64`). */
  datatype InstanceKey = InstanceKey(instance: string, k: int, threshold: real)

  /** Key of an algorithm group: (algorithm, num_threads). */
  datatype AlgorithmKey = AlgorithmKey(algorithm: string, threads: int)

  /** A row of the preprocessed benchmark table (its target columns). */
  datatype Row = Row(
    algorithm: string,
    threads: int,
    instance: string,
    k: int,
    threshold: real,
    feasibilityScore: real,
    quality: real,
    time: real,
    failed: string,
    timeout: string)

  function IKey(r: Row): InstanceKey {
    InstanceKey(r.instance, r.k, r.threshold)
  }

  function AKey(r: Row): AlgorithmKey {
    AlgorithmKey(r.algorithm, r.threads)
  }

  /** Ascending order on each key, column by column. */
  predicate InstanceKeyLe(a: InstanceKey, b: InstanceKey) {
    if a.instance != b.instance then StrLe(a.instance, b.instance)
    else if a.k != b.k then a.k < b.k
    else a.threshold <= b.threshold
  }

  predicate AlgorithmKeyLe(a: AlgorithmKey, b: AlgorithmKey) {
    if a.algorithm != b.algorithm then StrLe(a.algorithm, b.algorithm)
    else a.threads <= b.threads
  }

  /** The table's sort order: instance, k, feasibility_threshold,
      algorithm, num_threads, all ascending. */
  predicate RowLe(a: Row, b: Row) {
    if IKey(a) != IKey(b) then InstanceKeyLe(IKey(a), IKey(b))
    else AlgorithmKeyLe(AKey(a), AKey(b))
  }

  lemma InstanceKeyLeTotalOrder()
    ensures TotalPreorder(InstanceKeyLe) && Antisymmetric(InstanceKeyLe)
  {
    forall a: InstanceKey, b: InstanceKey ensures InstanceKeyLe(a, b) || InstanceKeyLe(b, a) {
      StrLeTotal(a.instance, b.instance);
    }
    forall a: InstanceKey, b: InstanceKey, c: InstanceKey | InstanceKeyLe(a, b) && InstanceKeyLe(b, c)
      ensures InstanceKeyLe(a, c)
    {
      if a.instance != b.instance && b.instance != c.instance {
        StrLeTransitive(a.instance, b.instance, c.instance);
        if a.instance == c.instance { StrLeAntisymmetric(a.instance, b.instance); }
      }
    }
    forall a: InstanceKey, b: InstanceKey | InstanceKeyLe(a, b) && InstanceKeyLe(b, a) ensures a == b {
      if a.instance != b.instance { StrLeAntisymmetric(a.instance, b.instance); }
    }
  }

  lemma AlgorithmKeyLeTotalOrder()
    ensures TotalPreorder(AlgorithmKeyLe) && Antisymmetric(AlgorithmKeyLe)
  {
    forall a: AlgorithmKey, b: AlgorithmKey ensures AlgorithmKeyLe(a, b) || AlgorithmKeyLe(b, a) {
      StrLeTotal(a.algorithm, b.algorithm);
    }
    forall a: AlgorithmKey, b: AlgorithmKey, c: AlgorithmKey | AlgorithmKeyLe(a, b) && AlgorithmKeyLe(b, c)
      ensures AlgorithmKeyLe(a, c)
    {
      if a.algorithm != b.algorithm && b.algorithm != c.algorithm {
        StrLeTransitive(a.algorithm, b.algorithm, c.algorithm);
        if a.algorithm == c.algorithm { StrLeAntisymmetric(a.algorithm, b.algorithm); }
      }
    }
    forall a: AlgorithmKey, b: AlgorithmKey | AlgorithmKeyLe(a, b) && AlgorithmKeyLe(b, a) ensures a == b {
      if a.algorithm != b.algorithm { StrLeAntisymmetric(a.algorithm, b.algorithm); }
    }
  }

  lemma RowLeTotalPreorder()
    ensures TotalPreorder(RowLe)
  {
    InstanceKeyLeTotalOrder();
    AlgorithmKeyLeTotalOrder();
  }

  /** `sort_by_exprs` over the table's sort order (the model takes the
      stable outcome). */
  function SortRows(rows: seq<Row>): (r: seq<Row>)
    ensures multiset(r) == multiset(rows) && SortedBy(r, RowLe)
  {
    RowLeTotalPreorder();
    SortSorted(rows, RowLe);
    Sort(rows, RowLe)
  }

  // ---------------------------------------------------------------------
  // fix_instance_names

  /** Graph files named `...scotch` are the same graphs as `...graph`:
      such a name has every `scotch` replaced by `graph`; any other name is
      kept. */
  function FixInstanceName(name: string): (r: string)
    ensures !EndsWith(name, "scotch") ==> r == name
    ensures EndsWith(name, "scotch") ==> EndsWith(r, "graph")
    ensures !EndsWith(r, "scotch")
    ensures EndsWith(name, "scotch") ==> !Occurs(r, "scotch")
    ensures EndsWith(name, "scotch") ==> r == ReplaceAll(name[..|name| - 6], "scotch", "graph") + "graph"
  {
    if EndsWith(name, "scotch") then
      ScotchToGraph();
      var p := name[..|name| - 6];
      assert name == p + "scotch";
      ReplaceAllAppendPattern(p, "scotch", "graph");
      ReplaceAllRemovesPattern(name, "scotch", "graph");
      var r := ReplaceAll(name, "scotch", "graph");
      assert |r| >= 6 ==> !OccursAt(r, "scotch", |r| - 6);
      r
    else name
  }

  /** "graph" cannot combine with its surroundings into a new "scotch", and
      "scotch" cannot overlap itself. */
  lemma ScotchToGraph()
    ensures NoCrossing("scotch", "graph") && FirstCharUnique("scotch")
  {
  }

  /** Repairing a name twice is repairing it once. */
  lemma FixInstanceNameIdempotent(name: string)
    ensures FixInstanceName(FixInstanceName(name)) == FixInstanceName(name)
  {
  }

  // ---------------------------------------------------------------------
  // Keys and groups

  /** Distinct instance keys in first-occurrence order (`unique_stable`,
      keep first; also the group order of `groupby_stable`). */
  function InstanceKeys(rows: seq<Row>): (r: seq<InstanceKey>)
    ensures NoDup(r) && forall g :: g in r <==> exists i :: 0 <= i < |rows| && IKey(rows[i]) == g
  {
    var keys := Map(rows, IKey);
    assert forall g :: g in keys <==> exists i :: 0 <= i < |rows| && IKey(rows[i]) == g;
    Distinct(keys)
  }

  /** Distinct algorithm keys in first-occurrence order. */
  function AlgorithmKeys(rows: seq<Row>): (r: seq<AlgorithmKey>)
    ensures NoDup(r) && forall a :: a in r <==> exists i :: 0 <= i < |rows| && AKey(rows[i]) == a
  {
    var keys := Map(rows, AKey);
    assert forall a :: a in keys <==> exists i :: 0 <= i < |rows| && AKey(rows[i]) == a;
    Distinct(keys)
  }

  /** The rows of one instance group, in table order. */
  function GroupOf(rows: seq<Row>, g: InstanceKey): (r: seq<Row>)
    ensures forall x :: x in r <==> x in rows && IKey(x) == g
    ensures g in InstanceKeys(rows) ==> |r| > 0
  {
    var r := Filter(rows, (x: Row) => IKey(x) == g);
    assert g in InstanceKeys(rows) ==> |r| > 0 by {
      if g in InstanceKeys(rows) {
        var i :| 0 <= i < |rows| && IKey(rows[i]) == g;
        assert rows[i] in r;
      }
    }
    r
  }

  function Qualities(rows: seq<Row>): seq<real> {
    Map(rows, (x: Row) => x.quality)
  }

  /** The row `sort_by(quality).first()` picks in a group: a row of the
      group with minimal quality, the first such in table order. */
  function BestRow(rows: seq<Row>, g: InstanceKey): (b: Row)
    requires g in InstanceKeys(rows)
    ensures b in rows && IKey(b) == g
    ensures forall x :: x in rows && IKey(x) == g ==> b.quality <= x.quality
  {
    var grp := GroupOf(rows, g);
    var qs := Qualities(grp);
    var k := ArgMinFirst(qs);
    assert forall x :: x in grp ==> exists i :: 0 <= i < |grp| && grp[i] == x && qs[i] == x.quality;
    grp[k]
  }

  // ---------------------------------------------------------------------
  // extract_instance_columns / extract_algorithm_columns

  function ToInstance(g: InstanceKey): Instance {
    Instance(g.instance, U32Cast(g.k), g.threshold)
  }

  function ToAlgorithm(a: AlgorithmKey): Algorithm {
    Algorithm(a.algorithm, U32Cast(a.threads))
  }

  /** Every `k` fits a `u32`, so the cast is the identity. */
  predicate KsFitU32(rows: seq<Row>) {
    forall x :: x in rows ==> 0 <= x.k < U32_LIMIT
  }

  /** Every `num_threads` fits a `u32`. */
  predicate ThreadsFitU32(rows: seq<Row>) {
    forall x :: x in rows ==> 0 <= x.threads < U32_LIMIT
  }

  /** The instances of the table: one per distinct key, as `Instance`
      values (with `k as u32`). Every row's instance occurs, nothing else
      does, and when every `k` fits a `u32` each occurs exactly once. */
  function ExtractInstances(rows: seq<Row>): (r: seq<Instance>)
    ensures |r| <= |rows|
    ensures forall i :: 0 <= i < |rows| ==> ToInstance(IKey(rows[i])) in r
    ensures forall x :: x in r ==> exists i :: 0 <= i < |rows| && ToInstance(IKey(rows[i])) == x
    ensures KsFitU32(rows) ==> NoDup(r)
  {
    var d := InstanceKeys(rows);
    ExtractInstancesFacts(rows, d);
    Map(d, ToInstance)
  }

  lemma ExtractInstancesFacts(rows: seq<Row>, d: seq<InstanceKey>)
    requires d == InstanceKeys(rows)
    ensures |d| <= |rows|
    ensures forall i :: 0 <= i < |rows| ==> ToInstance(IKey(rows[i])) in Map(d, ToInstance)
    ensures forall x :: x in Map(d, ToInstance) ==> exists i :: 0 <= i < |rows| && ToInstance(IKey(rows[i])) == x
    ensures KsFitU32(rows) ==> NoDup(Map(d, ToInstance))
  {
    assert |d| <= |rows| by { assert |d| == |Distinct(Map(rows, IKey))|; }
    ExtractInstancesCovers(rows, d);
    ExtractInstancesSound(rows, d);
    if KsFitU32(rows) {
      ExtractInstancesNoDup(rows, d);
    }
  }

  lemma ExtractInstancesCovers(rows: seq<Row>, d: seq<InstanceKey>)
    requires d == InstanceKeys(rows)
    ensures forall i :: 0 <= i < |rows| ==> ToInstance(IKey(rows[i])) in Map(d, ToInstance)
  {
    var r := Map(d, ToInstance);
    forall i | 0 <= i < |rows| ensures ToInstance(IKey(rows[i])) in r {
      var j := IndexOf(d, IKey(rows[i]));
      assert r[j] == ToInstance(IKey(rows[i]));
    }
  }

  lemma ExtractInstancesSound(rows: seq<Row>, d: seq<InstanceKey>)
    requires d == InstanceKeys(rows)
    ensures forall x :: x in Map(d, ToInstance) ==> exists i :: 0 <= i < |rows| && ToInstance(IKey(rows[i])) == x
  {
    var r := Map(d, ToInstance);
    forall x | x in r ensures exists i :: 0 <= i < |rows| && ToInstance(IKey(rows[i])) == x {
      var j :| 0 <= j < |r| && r[j] == x;
      assert d[j] in d;
      var i :| 0 <= i < |rows| && IKey(rows[i]) == d[j];
    }
  }

  lemma ExtractInstancesNoDup(rows: seq<Row>, d: seq<InstanceKey>)
    requires d == InstanceKeys(rows) && KsFitU32(rows)
    ensures NoDup(Map(d, ToInstance))
  {
    forall x, y | x in d && y in d && ToInstance(x) == ToInstance(y) ensures x == y {
      var i :| 0 <= i < |rows| && IKey(rows[i]) == x;
      var j :| 0 <= j < |rows| && IKey(rows[j]) == y;
    }
    MapInjectiveNoDup(d, ToInstance);
  }

  /** The algorithms of the table, one per distinct key, with
      `num_threads as u32`; the same guarantees as for instances. */
  function ExtractAlgorithms(rows: seq<Row>): (r: seq<Algorithm>)
    ensures |r| <= |rows|
    ensures forall i :: 0 <= i < |rows| ==> ToAlgorithm(AKey(rows[i])) in r
    ensures forall x :: x in r ==> exists i :: 0 <= i < |rows| && ToAlgorithm(AKey(rows[i])) == x
    ensures ThreadsFitU32(rows) ==> NoDup(r)
  {
    var d := AlgorithmKeys(rows);
    ExtractAlgorithmsFacts(rows, d);
    Map(d, ToAlgorithm)
  }

  lemma ExtractAlgorithmsFacts(rows: seq<Row>, d: seq<AlgorithmKey>)
    requires d == AlgorithmKeys(rows)
    ensures |d| <= |rows|
    ensures forall i :: 0 <= i < |rows| ==> ToAlgorithm(AKey(rows[i])) in Map(d, ToAlgorithm)
    ensures forall x :: x in Map(d, ToAlgorithm) ==> exists i :: 0 <= i < |rows| && ToAlgorithm(AKey(rows[i])) == x
    ensures ThreadsFitU32(rows) ==> NoDup(Map(d, ToAlgorithm))
  {
    assert |d| <= |rows| by { assert |d| == |Distinct(Map(rows, AKey))|; }
    ExtractAlgorithmsCovers(rows, d);
    ExtractAlgorithmsSound(rows, d);
    if ThreadsFitU32(rows) {
      ExtractAlgorithmsNoDup(rows, d);
    }
  }

  lemma ExtractAlgorithmsCovers(rows: seq<Row>, d: seq<AlgorithmKey>)
    requires d == AlgorithmKeys(rows)
    ensures forall i :: 0 <= i < |rows| ==> ToAlgorithm(AKey(rows[i])) in Map(d, ToAlgorithm)
  {
    var r := Map(d, ToAlgorithm);
    forall i | 0 <= i < |rows| ensures ToAlgorithm(AKey(rows[i])) in r {
      var j := IndexOf(d, AKey(rows[i]));
      assert r[j] == ToAlgorithm(AKey(rows[i]));
    }
  }

  lemma ExtractAlgorithmsSound(rows: seq<Row>, d: seq<AlgorithmKey>)
    requires d == AlgorithmKeys(rows)
    ensures forall x :: x in Map(d, ToAlgorithm) ==> exists i :: 0 <= i < |rows| && ToAlgorithm(AKey(rows[i])) == x
  {
    var r := Map(d, ToAlgorithm);
    forall x | x in r ensures exists i :: 0 <= i < |rows| && ToAlgorithm(AKey(rows[i])) == x {
      var j :| 0 <= j < |r| && r[j] == x;
      assert d[j] in d;
      var i :| 0 <= i < |rows| && AKey(rows[i]) == d[j];
    }
  }

  lemma ExtractAlgorithmsNoDup(rows: seq<Row>, d: seq<AlgorithmKey>)
    requires d == AlgorithmKeys(rows) && ThreadsFitU32(rows)
    ensures NoDup(Map(d, ToAlgorithm))
  {
    forall x, y | x in d && y in d && ToAlgorithm(x) == ToAlgorithm(y) ensures x == y {
      var i :| 0 <= i < |rows| && AKey(rows[i]) == x;
      var j :| 0 <= j < |rows| && AKey(rows[j]) == y;
    }
    MapInjectiveNoDup(d, ToAlgorithm);
  }

  /** The extracted keys keep first-occurrence order. */
  lemma ExtractAlgorithmsOrder(rows: seq<Row>, i: nat, j: nat)
    requires i < j < |AlgorithmKeys(rows)|
    ensures IndexOf(Map(rows, AKey), AlgorithmKeys(rows)[i]) < IndexOf(Map(rows, AKey), AlgorithmKeys(rows)[j])
  {
    DistinctFirstOccurrenceOrder(Map(rows, AKey), i, j);
  }

  // ---------------------------------------------------------------------
  // best_per_instance_time

  /** For each instance group, in first-appearance order, the time of the
      group's best-quality row (renamed `best_time`). */
  function BestPerInstanceTime(rows: seq<Row>): (r: seq<(InstanceKey, real)>)
    ensures |r| == |InstanceKeys(rows)|
    ensures forall i :: 0 <= i < |r| ==> r[i].0 == InstanceKeys(rows)[i]
    ensures forall i :: 0 <= i < |r| ==> exists b ::
      b in rows && IKey(b) == r[i].0 && b.time == r[i].1
      && forall x :: x in rows && IKey(x) == r[i].0 ==> b.quality <= x.quality
  {
    var keys := InstanceKeys(rows);
    seq(|keys|, i requires 0 <= i < |keys| => (keys[i], GroupBestTime(rows, keys[i])))
  }

  /** The time of one instance group's best-quality row. */
  function GroupBestTime(rows: seq<Row>, g: InstanceKey): (t: real)
    requires g in InstanceKeys(rows)
    ensures exists b :: b in rows && IKey(b) == g && b.time == t &&
                        forall x :: x in rows && IKey(x) == g ==> b.quality <= x.quality
  {
    var b := BestRow(rows, g);
    b.time
  }

  // ---------------------------------------------------------------------
  // stats_by_sampling

  /** A row of the sampled table: instance and algorithm keys, the sample
      size `s` and `e_min`, the least of `s` sampled qualities. */
  datatype StatRow = StatRow(instance: InstanceKey, algorithm: AlgorithmKey, sampleSize: nat, eMin: real)

  datatype StatKey = StatKey(instance: InstanceKey, algorithm: AlgorithmKey, sampleSize: nat)

  function KeyOf(r: StatRow): StatKey {
    StatKey(r.instance, r.algorithm, r.sampleSize)
  }

  predicate StatKeyLe(a: StatKey, b: StatKey) {
    if a.instance != b.instance then InstanceKeyLe(a.instance, b.instance)
    else if a.algorithm != b.algorithm then AlgorithmKeyLe(a.algorithm, b.algorithm)
    else a.sampleSize <= b.sampleSize
  }

  /** The sampled table's sort order: the table's sort order, then
      `sample_size`. */
  predicate StatRowLe(a: StatRow, b: StatRow) {
    StatKeyLe(KeyOf(a), KeyOf(b))
  }

  lemma StatKeyLeTotalOrder()
    ensures TotalPreorder(StatKeyLe) && Antisymmetric(StatKeyLe)
  {
    InstanceKeyLeTotalOrder();
    AlgorithmKeyLeTotalOrder();
  }

  lemma StatRowLeTotalPreorder()
    ensures TotalPreorder(StatRowLe)
  {
    StatKeyLeTotalOrder();
  }

  /** A sampling group: one (instance, algorithm) pair. */
  datatype Pair = Pair(instance: InstanceKey, algorithm: AlgorithmKey)

  function PairOf(r: Row): Pair {
    Pair(IKey(r), AKey(r))
  }

  /** The (instance, algorithm) groups of the table. */
  function Pairs(rows: seq<Row>): (r: seq<Pair>)
    ensures NoDup(r) && forall p :: p in r <==> exists i :: 0 <= i < |rows| && PairOf(rows[i]) == p
  {
    var keys := Map(rows, PairOf);
    assert forall p :: p in keys <==> exists i :: 0 <= i < |rows| && PairOf(rows[i]) == p;
    Distinct(keys)
  }

  /** The rows of one (instance, algorithm) group, in table order. */
  function PairRows(rows: seq<Row>, p: Pair): (g: seq<Row>)
    ensures forall x :: x in g <==> x in rows && PairOf(x) == p
    ensures p in Pairs(rows) ==> |g| > 0
  {
    var g := Filter(rows, (x: Row) => PairOf(x) == p);
    assert p in Pairs(rows) ==> |g| > 0 by {
      if p in Pairs(rows) {
        var i :| 0 <= i < |rows| && PairOf(rows[i]) == p;
        assert rows[i] in g;
      }
    }
    g
  }

  /** `sample_n(s, with replacement, seed s)` followed by `min`: the least
      of `s` qualities drawn from the group. `pick(s, n, j)` stands for the
      generator's `j`-th index draw among `n` values under seed `s`. The
      result is one of the group's qualities. */
  function SampledMin(qs: seq<real>, s: nat, pick: (nat, nat, nat) -> nat): (m: real)
    requires |qs| > 0 && s > 0
    ensures m in qs
  {
    var draws := seq(s, j requires 0 <= j < s => qs[pick(s, |qs|, j) % |qs|]);
    assert forall x :: x in draws ==> x in qs;
    Min(draws)
  }

  /** The row of the sampled table for group `p` and sample size `s`. */
  function SampleRow(rows: seq<Row>, p: Pair, s: nat, pick: (nat, nat, nat) -> nat): StatRow
    requires p in Pairs(rows) && s > 0
  {
    StatRow(p.instance, p.algorithm, s, SampledMin(Qualities(PairRows(rows, p)), s, pick))
  }

  /** The block of the sampled table for one sample size: one row per
      group, in group order. */
  function SampleBlock(rows: seq<Row>, s: nat, pick: (nat, nat, nat) -> nat): seq<StatRow>
    requires s > 0
  {
    var ps := Pairs(rows);
    seq(|ps|, i requires 0 <= i < |ps| => SampleRow(rows, ps[i], s, pick))
  }

  /** The sample table before sorting: one block per `s` in
      `1..=sampleSize`. */
  function SampleBlocks(rows: seq<Row>, sampleSize: nat, pick: (nat, nat, nat) -> nat): seq<seq<StatRow>> {
    seq(sampleSize, s requires 0 <= s < sampleSize => SampleBlock(rows, s + 1, pick))
  }

  /** What every row of the sampled table satisfies: its group exists,
      its sample size is in `1..=sampleSize`, and `e_min` is the quality of
      one of the group's runs. */
  predicate WellSampled(rows: seq<Row>, sampleSize: nat, x: StatRow) {
    && Pair(x.instance, x.algorithm) in Pairs(rows)
    && 1 <= x.sampleSize <= sampleSize
    && exists y :: y in rows && PairOf(y) == Pair(x.instance, x.algorithm) && y.quality == x.eMin
  }

  lemma SampleRowWellSampled(rows: seq<Row>, p: Pair, s: nat, sampleSize: nat, pick: (nat, nat, nat) -> nat)
    requires p in Pairs(rows) && 0 < s <= sampleSize
    ensures WellSampled(rows, sampleSize, SampleRow(rows, p, s, pick))
  {
    var g := PairRows(rows, p);
    var qs := Qualities(g);
    var m := SampledMin(qs, s, pick);
    var j :| 0 <= j < |qs| && qs[j] == m;
    assert g[j] in g;
  }

  lemma SampleBlocksLength(rows: seq<Row>, sampleSize: nat, pick: (nat, nat, nat) -> nat)
    ensures |Flatten(SampleBlocks(rows, sampleSize, pick))| == sampleSize * |Pairs(rows)|
  {
    FlattenRectangularLength(SampleBlocks(rows, sampleSize, pick), |Pairs(rows)|);
  }

  /** Within one block the keys are the pairs' keys at that sample size. */
  lemma SampleBlockKeys(rows: seq<Row>, s: nat, pick: (nat, nat, nat) -> nat)
    requires s > 0
    ensures NoDup(Map(SampleBlock(rows, s, pick), KeyOf))
    ensures forall x :: x in Map(SampleBlock(rows, s, pick), KeyOf) ==> x.sampleSize == s
  {
    var ps := Pairs(rows);
    var ks := Map(SampleBlock(rows, s, pick), KeyOf);
    assert |ks| == |ps|;
    forall a | 0 <= a < |ks| ensures ks[a] == StatKey(ps[a].instance, ps[a].algorithm, s) {
    }
    forall a, b | 0 <= a < b < |ks| ensures ks[a] != ks[b] {
      assert ps[a] != ps[b];
    }
  }

  lemma SampleBlocksKeys(rows: seq<Row>, sampleSize: nat, pick: (nat, nat, nat) -> nat)
    ensures NoDup(Map(Flatten(SampleBlocks(rows, sampleSize, pick)), KeyOf))
  {
    var bs := SampleBlocks(rows, sampleSize, pick);
    var ks: seq<seq<StatKey>> := seq(|bs|, i requires 0 <= i < |bs| => Map(bs[i], KeyOf));
    MapFlatten(bs, KeyOf);
    forall i | 0 <= i < |ks|
      ensures NoDup(ks[i]) && forall x :: x in ks[i] ==> x.sampleSize == i + 1
    {
      SampleBlockKeys(rows, i + 1, pick);
    }
    forall i, j, x: StatKey | 0 <= i < j < |ks| && x in ks[i] ensures x !in ks[j] {
    }
    FlattenNoDup(ks);
  }

  /** A row of the block for sample size `s` is some pair's sample row. */
  lemma SampleBlockMember(rows: seq<Row>, s: nat, pick: (nat, nat, nat) -> nat, x: StatRow) returns (p: Pair)
    requires s > 0 && x in SampleBlock(rows, s, pick)
    ensures p in Pairs(rows) && x == SampleRow(rows, p, s, pick)
  {
    var blk, ps := SampleBlock(rows, s, pick), Pairs(rows);
    var a :| 0 <= a < |blk| && blk[a] == x;
    p := ps[a];
  }

  lemma SampleBlocksWellSampled(rows: seq<Row>, sampleSize: nat, pick: (nat, nat, nat) -> nat, x: StatRow)
    requires x in Flatten(SampleBlocks(rows, sampleSize, pick))
    ensures WellSampled(rows, sampleSize, x)
  {
    var bs := SampleBlocks(rows, sampleSize, pick);
    FlattenMember(bs, x);
    var i :| 0 <= i < |bs| && x in bs[i];
    var p := SampleBlockMember(rows, i + 1, pick, x);
    SampleRowWellSampled(rows, p, i + 1, sampleSize, pick);
  }

  lemma SampleBlocksCover(rows: seq<Row>, sampleSize: nat, pick: (nat, nat, nat) -> nat, p: Pair, s: nat)
    requires p in Pairs(rows) && 1 <= s <= sampleSize
    ensures StatKey(p.instance, p.algorithm, s) in Map(Flatten(SampleBlocks(rows, sampleSize, pick)), KeyOf)
  {
    var bs := SampleBlocks(rows, sampleSize, pick);
    var t := Flatten(bs);
    var a := IndexOf(Pairs(rows), p);
    var blk := SampleBlock(rows, s, pick);
    assert bs[s - 1] == blk;
    var x := SampleRow(rows, p, s, pick);
    assert blk[a] == x;
    FlattenMember(bs, x);
    MapMember(t, KeyOf, x);
  }

  /** The sampled table: the blocks concatenated and sorted. */
  function SortedSamples(rows: seq<Row>, sampleSize: nat, pick: (nat, nat, nat) -> nat): seq<StatRow> {
    Sort(Flatten(SampleBlocks(rows, sampleSize, pick)), StatRowLe)
  }

  /** `stats_by_sampling`: for every sample size `s` in `1..=sampleSize`,
      one row per (instance, algorithm) group, sorted. With no sample size
      the concatenation of no frames fails (`Err`, a panic in the source). */
  function StatsBySampling(rows: seq<Row>, sampleSize: nat, pick: (nat, nat, nat) -> nat)
    : (r: Result<seq<StatRow>, string>)
    ensures r.Ok? <==> sampleSize > 0
  {
    if sampleSize == 0 then Err("Failed to build E_min dataframe")
    else Ok(SortedSamples(rows, sampleSize, pick))
  }

  /** The sampled table has one row for each group and each sample size in
      `1..=sampleSize` — every such key occurs, none twice — it is sorted,
      and every row's `e_min` is a quality the group achieved. */
  lemma StatsBySamplingFacts(rows: seq<Row>, sampleSize: nat, pick: (nat, nat, nat) -> nat)
    requires sampleSize > 0
    ensures var r := StatsBySampling(rows, sampleSize, pick).value;
      && |r| == sampleSize * |Pairs(rows)|
      && SortedBy(r, StatRowLe)
      && NoDup(Map(r, KeyOf))
      && (forall x :: x in r ==> WellSampled(rows, sampleSize, x))
      && (forall p, s :: p in Pairs(rows) && 1 <= s <= sampleSize ==>
            StatKey(p.instance, p.algorithm, s) in Map(r, KeyOf))
  {
    var t := Flatten(SampleBlocks(rows, sampleSize, pick));
    var r := Sort(t, StatRowLe);
    SampleBlocksLength(rows, sampleSize, pick);
    StatRowLeTotalPreorder();
    SortSorted(t, StatRowLe);
    SampleBlocksKeys(rows, sampleSize, pick);
    MapNoDupPermutation(t, r, KeyOf);
    forall x | x in r ensures WellSampled(rows, sampleSize, x) {
      assert x in multiset(t);
      SampleBlocksWellSampled(rows, sampleSize, pick, x);
    }
    forall p, s | p in Pairs(rows) && 1 <= s <= sampleSize
      ensures StatKey(p.instance, p.algorithm, s) in Map(r, KeyOf)
    {
      SampleBlocksCover(rows, sampleSize, pick, p, s);
      MapPermutationMember(t, r, KeyOf, StatKey(p.instance, p.algorithm, s));
    }
  }

  // ---------------------------------------------------------------------
  // cleanup_missing_rows

  /** f64::MAX, the `MaxBound` fill of a float column. */
  const F64_MAX: real := 179769313486231570814527423731704356798070567525844996598917476803157260780028538760589558632766878171540458953514382464234321326889464182768467546703537516986049910576551282076245490090389328944075868508455133942304583236903222948165808559332123348274797826204144723168738177180919299881250404026184124858368.0

  /** The keys of one instance: algorithms × `1..=k`, algorithm major. */
  function AlgorithmBlock(g: InstanceKey, algorithms: seq<AlgorithmKey>, k: nat): seq<StatKey> {
    Flatten(seq(|algorithms|, j requires 0 <= j < |algorithms| =>
      seq(k, s requires 0 <= s < k => StatKey(g, algorithms[j], s + 1))))
  }

  /** The cartesian product instances × algorithms × `1..=k`, instance
      major, then algorithm, then sample size (the order of the two cross
      joins). */
  function Product(instances: seq<InstanceKey>, algorithms: seq<AlgorithmKey>, k: nat): seq<StatKey> {
    Flatten(seq(|instances|, i requires 0 <= i < |instances| => AlgorithmBlock(instances[i], algorithms, k)))
  }

  lemma AlgorithmBlockFacts(g: InstanceKey, algorithms: seq<AlgorithmKey>, k: nat)
    requires NoDup(algorithms)
    ensures |AlgorithmBlock(g, algorithms, k)| == |algorithms| * k
    ensures NoDup(AlgorithmBlock(g, algorithms, k))
    ensures forall x :: x in AlgorithmBlock(g, algorithms, k) <==>
      x.instance == g && x.algorithm in algorithms && 1 <= x.sampleSize <= k
  {
    var bs: seq<seq<StatKey>> := seq(|algorithms|, j requires 0 <= j < |algorithms| =>
      seq(k, s requires 0 <= s < k => StatKey(g, algorithms[j], s + 1)));
    FlattenRectangularLength(bs, k);
    forall i, j, x: StatKey | 0 <= i < j < |bs| && x in bs[i] ensures x !in bs[j] {
      assert x.algorithm == algorithms[i];
    }
    FlattenNoDup(bs);
    forall x ensures x in Flatten(bs) <==> x.instance == g && x.algorithm in algorithms && 1 <= x.sampleSize <= k {
      FlattenMember(bs, x);
      if x.instance == g && x.algorithm in algorithms && 1 <= x.sampleSize <= k {
        var j := IndexOf(algorithms, x.algorithm);
        assert bs[j][x.sampleSize - 1] == x;
      }
    }
  }

  function ProductBlocks(instances: seq<InstanceKey>, algorithms: seq<AlgorithmKey>, k: nat): seq<seq<StatKey>> {
    seq(|instances|, i requires 0 <= i < |instances| => AlgorithmBlock(instances[i], algorithms, k))
  }

  /** The product has every combination exactly once. */
  lemma ProductFacts(instances: seq<InstanceKey>, algorithms: seq<AlgorithmKey>, k: nat)
    requires NoDup(instances) && NoDup(algorithms)
    ensures |Product(instances, algorithms, k)| == |instances| * (|algorithms| * k)
    ensures NoDup(Product(instances, algorithms, k))
    ensures forall x :: x in Product(instances, algorithms, k) <==>
      x.instance in instances && x.algorithm in algorithms && 1 <= x.sampleSize <= k
  {
    var bs := ProductBlocks(instances, algorithms, k);
    assert Product(instances, algorithms, k) == Flatten(bs);
    forall i | 0 <= i < |bs| ensures |bs[i]| == |algorithms| * k && NoDup(bs[i]) {
      AlgorithmBlockFacts(instances[i], algorithms, k);
    }
    FlattenRectangularLength(bs, |algorithms| * k);
    ProductNoDup(instances, algorithms, k);
    forall x ensures x in Flatten(bs) <==> x.instance in instances && x.algorithm in algorithms && 1 <= x.sampleSize <= k {
      ProductMember(instances, algorithms, k, x);
    }
  }

  lemma ProductNoDup(instances: seq<InstanceKey>, algorithms: seq<AlgorithmKey>, k: nat)
    requires NoDup(instances) && NoDup(algorithms)
    ensures NoDup(Flatten(ProductBlocks(instances, algorithms, k)))
  {
    var bs := ProductBlocks(instances, algorithms, k);
    forall i | 0 <= i < |bs| ensures NoDup(bs[i]) {
      AlgorithmBlockFacts(instances[i], algorithms, k);
    }
    forall i, j, x | 0 <= i < j < |bs| && x in bs[i] ensures x !in bs[j] {
      AlgorithmBlockFacts(instances[i], algorithms, k);
      AlgorithmBlockFacts(instances[j], algorithms, k);
    }
    FlattenNoDup(bs);
  }

  lemma ProductMember(instances: seq<InstanceKey>, algorithms: seq<AlgorithmKey>, k: nat, x: StatKey)
    requires NoDup(algorithms)
    ensures x in Flatten(ProductBlocks(instances, algorithms, k)) <==>
      x.instance in instances && x.algorithm in algorithms && 1 <= x.sampleSize <= k
  {
    var bs := ProductBlocks(instances, algorithms, k);
    FlattenMember(bs, x);
    if x in Flatten(bs) {
      var i :| 0 <= i < |bs| && x in bs[i];
      AlgorithmBlockFacts(instances[i], algorithms, k);
    }
    if x.instance in instances && x.algorithm in algorithms && 1 <= x.sampleSize <= k {
      var i := IndexOf(instances, x.instance);
      AlgorithmBlockFacts(instances[i], algorithms, k);
      assert x in bs[i];
    }
  }

  function StatInstances(stats: seq<StatRow>): (r: seq<InstanceKey>)
    ensures NoDup(r) && forall g :: g in r <==> exists i :: 0 <= i < |stats| && stats[i].instance == g
  {
    var keys := Map(stats, (x: StatRow) => x.instance);
    assert forall g :: g in keys <==> exists i :: 0 <= i < |stats| && stats[i].instance == g;
    Distinct(keys)
  }

  function StatAlgorithms(stats: seq<StatRow>): (r: seq<AlgorithmKey>)
    ensures NoDup(r) && forall a :: a in r <==> exists i :: 0 <= i < |stats| && stats[i].algorithm == a
  {
    var keys := Map(stats, (x: StatRow) => x.algorithm);
    assert forall a :: a in keys <==> exists i :: 0 <= i < |stats| && stats[i].algorithm == a;
    Distinct(keys)
  }

  function FullProduct(stats: seq<StatRow>, k: nat): seq<StatKey> {
    Product(StatInstances(stats), StatAlgorithms(stats), k)
  }

  /** The keys of the full product that the table lacks. */
  function MissingKeys(stats: seq<StatRow>, k: nat): seq<StatKey> {
    var present := Map(stats, KeyOf);
    Filter(FullProduct(stats, k), x => x !in present)
  }

  function FillRow(x: StatKey): StatRow {
    StatRow(x.instance, x.algorithm, x.sampleSize, F64_MAX)
  }

  /** `cleanup_missing_rows`: the outer join of the table with the full
      product instances × algorithms × `1..=k`, nulls filled with the
      float maximum. The table's own rows come first and are unchanged;
      every added row has a product key the table lacks and `e_min` =
      f64::MAX. */
  function CleanupMissingRows(stats: seq<StatRow>, k: nat): (r: seq<StatRow>)
    ensures |r| >= |stats| && r[..|stats|] == stats
    ensures forall i :: |stats| <= i < |r| ==>
      && KeyOf(r[i]) in FullProduct(stats, k)
      && KeyOf(r[i]) !in Map(stats, KeyOf)
      && r[i].eMin == F64_MAX
  {
    var missing := MissingKeys(stats, k);
    var r := stats + Map(missing, FillRow);
    assert forall i :: |stats| <= i < |r| ==> r[i] == FillRow(missing[i - |stats|]) && missing[i - |stats|] in missing;
    r
  }

  lemma CleanupKeys(stats: seq<StatRow>, k: nat)
    ensures Map(CleanupMissingRows(stats, k), KeyOf) == Map(stats, KeyOf) + MissingKeys(stats, k)
  {
    var missing := MissingKeys(stats, k);
    MapAppend(stats, Map(missing, FillRow), KeyOf);
    assert Map(Map(missing, FillRow), KeyOf) == missing;
  }

  /** After the join every product key is present. */
  lemma CleanupMissingRowsCovers(stats: seq<StatRow>, k: nat, x: StatKey)
    requires x in FullProduct(stats, k)
    ensures x in Map(CleanupMissingRows(stats, k), KeyOf)
  {
    CleanupKeys(stats, k);
  }

  /** A table that already has every product key is left as it is. */
  lemma CleanupMissingRowsComplete(stats: seq<StatRow>, k: nat)
    requires forall x :: x in FullProduct(stats, k) ==> x in Map(stats, KeyOf)
    ensures CleanupMissingRows(stats, k) == stats
  {
    var present := Map(stats, KeyOf);
    var product := FullProduct(stats, k);
    assert forall i :: 0 <= i < |product| ==> product[i] in product;
    FilterNone(product, x => x !in present);
  }

  /** When the table has no two rows with the same key, and its sample
      sizes are in `1..=k`, the completed table has exactly one row per
      product key: #instances × #algorithms × k rows. */
  lemma CleanupMissingRowsCount(stats: seq<StatRow>, k: nat)
    requires NoDup(Map(stats, KeyOf))
    requires forall i :: 0 <= i < |stats| ==> 1 <= stats[i].sampleSize <= k
    ensures NoDup(Map(CleanupMissingRows(stats, k), KeyOf))
    ensures |CleanupMissingRows(stats, k)| == |StatInstances(stats)| * (|StatAlgorithms(stats)| * k)
    ensures forall x :: x in Map(CleanupMissingRows(stats, k), KeyOf) <==> x in FullProduct(stats, k)
  {
    var present := Map(stats, KeyOf);
    var product := FullProduct(stats, k);
    var missing := MissingKeys(stats, k);
    ProductFacts(StatInstances(stats), StatAlgorithms(stats), k);
    forall x | x in present ensures x in product {
      var i :| 0 <= i < |stats| && present[i] == x;
      assert stats[i].instance in StatInstances(stats);
      assert stats[i].algorithm in StatAlgorithms(stats);
    }
    CleanupKeys(stats, k);
    FilterNoDup(product, x => x !in present);
    NoDupAppend(present, missing);
    FilterSubsetCount(product, present);
    FilterCongruent(product, x => x !in present, (x: StatKey) => x !in present);
  }

  // ---------------------------------------------------------------------
  // filter_algorithms_by_slowdown

  /** The score `gmean` computes: the mean of `ln` over a column (the
      source never exponentiates it). `ln` is the logarithm. */
  function LnMean(xs: seq<real>, ln: real -> real): real {
    Mean(Map(xs, ln))
  }

  /** Score of one algorithm: mean `ln` of its run times. */
  function AlgorithmScore(rows: seq<Row>, a: AlgorithmKey, ln: real -> real): real {
    LnMean(Map(Filter(rows, (x: Row) => AKey(x) == a), (x: Row) => x.time), ln)
  }

  /** The reference: mean `ln` of the per-instance best times. */
  function ReferenceScore(rows: seq<Row>, ln: real -> real): real {
    LnMean(Map(BestPerInstanceTime(rows), (p: (InstanceKey, real)) => p.1), ln)
  }

  /** The algorithms whose score is below `ratio` times the reference. */
  function FastAlgorithms(rows: seq<Row>, ratio: real, ln: real -> real): seq<AlgorithmKey> {
    var bound := ratio * ReferenceScore(rows, ln);
    Filter(AlgorithmKeys(rows), (a: AlgorithmKey) => AlgorithmScore(rows, a, ln) < bound)
  }

  /** A row's algorithm is among the fast ones exactly when its score is
      below the bound. */
  lemma FastMember(rows: seq<Row>, ratio: real, ln: real -> real, x: Row)
    requires x in rows
    ensures (AKey(x) in FastAlgorithms(rows, ratio, ln))
        == (AlgorithmScore(rows, AKey(x), ln) < ratio * ReferenceScore(rows, ln))
  {
    var i :| 0 <= i < |rows| && rows[i] == x;
    assert AKey(x) in AlgorithmKeys(rows);
  }

  /** `filter_algorithms_by_slowdown`: the inner join of the table with the
      algorithms fast enough. */
  function FilterBySlowdown(rows: seq<Row>, ratio: real, ln: real -> real): (r: seq<Row>)
    ensures multiset(r) <= multiset(rows)
    ensures forall x :: x in r <==>
      x in rows && AlgorithmScore(rows, AKey(x), ln) < ratio * ReferenceScore(rows, ln)
  {
    var fast := FastAlgorithms(rows, ratio, ln);
    var keep := (x: Row) => AKey(x) in fast;
    assert forall x :: x in rows ==>
      (keep(x) == (AlgorithmScore(rows, AKey(x), ln) < ratio * ReferenceScore(rows, ln))) by {
      forall x | x in rows
        ensures keep(x) == (AlgorithmScore(rows, AKey(x), ln) < ratio * ReferenceScore(rows, ln))
      {
        FastMember(rows, ratio, ln, x);
      }
    }
    FilterMultiset(rows, keep);
    Filter(rows, keep)
  }

  /** Nothing but filtering happens: the result is the table, in order,
      without the rows of slow algorithms. */
  lemma FilterBySlowdownIsFilter(rows: seq<Row>, ratio: real, ln: real -> real)
    ensures FilterBySlowdown(rows, ratio, ln) ==
      Filter(rows, (x: Row) => AlgorithmScore(rows, AKey(x), ln) < ratio * ReferenceScore(rows, ln))
  {
    var fast := FastAlgorithms(rows, ratio, ln);
    forall i | 0 <= i < |rows|
      ensures (AKey(rows[i]) in fast) == (AlgorithmScore(rows, AKey(rows[i]), ln) < ratio * ReferenceScore(rows, ln))
    {
      assert AKey(rows[i]) in AlgorithmKeys(rows);
    }
    FilterCongruent(rows, (x: Row) => AKey(x) in fast,
      (x: Row) => AlgorithmScore(rows, AKey(x), ln) < ratio * ReferenceScore(rows, ln));
  }

  // ---------------------------------------------------------------------
  // best_per_instance_count

  /** The algorithm of each instance group's best row, group by group. */
  function Winners(rows: seq<Row>): (w: seq<AlgorithmKey>)
    ensures |w| == |InstanceKeys(rows)|
    ensures forall a :: a in w ==> a in AlgorithmKeys(rows)
  {
    var keys := InstanceKeys(rows);
    seq(|keys|, i requires 0 <= i < |keys| => AKey(BestRow(rows, keys[i])))
  }

  /** Whether instance group `g` of the table has its best row on
      algorithm `a`. */
  function WonBy(rows: seq<Row>, a: AlgorithmKey): InstanceKey -> bool {
    g => g in InstanceKeys(rows) && AKey(BestRow(rows, g)) == a
  }

  /** An algorithm occurs among the winners once per group it is best on. */
  lemma WinnersCount(rows: seq<Row>, a: AlgorithmKey)
    ensures multiset(Winners(rows))[a] == |Filter(InstanceKeys(rows), WonBy(rows, a))|
  {
    var keys, w := InstanceKeys(rows), Winners(rows);
    forall i | 0 <= i < |keys| ensures WonBy(rows, a)(keys[i]) == (w[i] == a) {
      assert keys[i] in keys;
    }
    CountMatches(keys, w, WonBy(rows, a), a);
  }

  /** The row order of the outer join that ends `best_per_instance_count`.
      The library does not document it, so the model takes it as a
      parameter and admits two orders: the left relation's rows (the
      winners, in order of first win, from `groupby_stable`) followed by
      the right relation's unmatched rows (the algorithms that never win,
      in table order); or the order of the right relation
      `algorithm_series`, which is the order of first appearance in the
      table. */
  datatype JoinOrder = WinnersFirst | SeriesOrder

  /** The algorithms in the row order of the join. */
  function CountedAlgorithms(rows: seq<Row>, order: JoinOrder): seq<AlgorithmKey> {
    match order
    case WinnersFirst =>
      var w := Winners(rows);
      Distinct(w) + Filter(AlgorithmKeys(rows), a => a !in w)
    case SeriesOrder => AlgorithmKeys(rows)
  }

  lemma CountedAlgorithmsKeys(rows: seq<Row>, order: JoinOrder)
    ensures forall a :: a in CountedAlgorithms(rows, order) ==> a in AlgorithmKeys(rows)
  {
    if order.WinnersFirst? {
      var w := Winners(rows);
      assert forall a :: a in Distinct(w) ==> a in w;
    }
  }

  function CountName(c: (AlgorithmKey, int)): AlgorithmKey { c.0 }
  function CountValue(c: (AlgorithmKey, int)): int { c.1 }

  /** The count row of algorithm `a`: how often it occurs among the
      winners, which is the number of instance groups it is best on. */
  function CountEntry(rows: seq<Row>, a: AlgorithmKey): (c: (AlgorithmKey, int))
    ensures c.0 == a && c.1 >= 0
    ensures c.1 == |Filter(InstanceKeys(rows), WonBy(rows, a))|
  {
    WinnersCount(rows, a);
    (a, multiset(Winners(rows))[a])
  }

  /** `best_per_instance_count`: each algorithm with the number of
      instance groups it is best on, in the row order `order` of the
      join; the count of an algorithm that never wins is the outer join's
      null, filled with zero. */
  function BestPerInstanceCount(rows: seq<Row>, order: JoinOrder): (r: seq<(AlgorithmKey, int)>)
    ensures |r| == |CountedAlgorithms(rows, order)|
    ensures forall i :: 0 <= i < |r| ==> r[i].0 == CountedAlgorithms(rows, order)[i]
    ensures forall i :: 0 <= i < |r| ==> r[i].0 in AlgorithmKeys(rows) && r[i].1 >= 0
    ensures forall i :: 0 <= i < |r| ==> r[i].1 == |Filter(InstanceKeys(rows), WonBy(rows, r[i].0))|
  {
    var names := CountedAlgorithms(rows, order);
    CountedAlgorithmsKeys(rows, order);
    seq(|names|, i requires 0 <= i < |names| => CountEntry(rows, names[i]))
  }

  /** In either order every algorithm of the table is listed exactly once. */
  lemma BestPerInstanceCountKeys(rows: seq<Row>, order: JoinOrder)
    ensures NoDup(Map(BestPerInstanceCount(rows, order), CountName))
    ensures forall a :: a in Map(BestPerInstanceCount(rows, order), CountName) <==> a in AlgorithmKeys(rows)
  {
    var w := Winners(rows);
    var names := CountedAlgorithms(rows, order);
    assert Map(BestPerInstanceCount(rows, order), CountName) == names;
    if order.WinnersFirst? {
      FilterNoDup(AlgorithmKeys(rows), a => a !in w);
      NoDupAppend(Distinct(w), Filter(AlgorithmKeys(rows), a => a !in w));
    }
  }

  /** Each instance group has exactly one best row, so the counts add up
      to the number of instance groups. */
  lemma BestPerInstanceCountSum(rows: seq<Row>, order: JoinOrder)
    ensures SumInt(Map(BestPerInstanceCount(rows, order), CountValue)) == |InstanceKeys(rows)|
  {
    var w := Winners(rows);
    var names := CountedAlgorithms(rows, order);
    BestPerInstanceCountKeys(rows, order);
    assert Map(BestPerInstanceCount(rows, order), CountName) == names;
    assert Map(BestPerInstanceCount(rows, order), CountValue) == CountsOf(names, w);
    CountsOfSum(names, w);
  }

  /** An algorithm that is never best has count zero. */
  lemma NeverBestCountsZero(rows: seq<Row>, order: JoinOrder, a: AlgorithmKey, i: nat)
    requires forall g :: g in InstanceKeys(rows) ==> AKey(BestRow(rows, g)) != a
    requires i < |BestPerInstanceCount(rows, order)| && BestPerInstanceCount(rows, order)[i].0 == a
    ensures BestPerInstanceCount(rows, order)[i].1 == 0
  {
    NotWinner(rows, a);
  }

  lemma NotWinner(rows: seq<Row>, a: AlgorithmKey)
    requires forall g :: g in InstanceKeys(rows) ==> AKey(BestRow(rows, g)) != a
    ensures a !in Winners(rows)
  {
    var w := Winners(rows);
    var keys := InstanceKeys(rows);
    forall j | 0 <= j < |w| ensures w[j] != a {
      assert keys[j] in keys;
    }
  }

  // ---------------------------------------------------------------------
  // filter_desired_instances

  /** The graphs file as read: absent (`from_path` fails), unparsable
      (`finish` fails) or a column of graph names. */
  datatype GraphsCsv = NotFound | Malformed | Graphs(names: seq<string>)

  /** How often an inner join with graphs × ks × thresholds matches a row. */
  function Matches(r: Row, names: seq<string>, ks: seq<int>, thresholds: seq<real>): nat {
    multiset(names)[r.instance] * multiset(ks)[r.k] * multiset(thresholds)[r.threshold]
  }

  function Repeat<T>(x: T, n: nat): (r: seq<T>)
    ensures |r| == n && forall i :: 0 <= i < n ==> r[i] == x
  {
    seq(n, _ => x)
  }

  /** The inner join: each row once per matching triple, in table order. */
  function JoinDesired(rows: seq<Row>, names: seq<string>, ks: seq<int>, thresholds: seq<real>): seq<Row> {
    if rows == [] then []
    else Repeat(rows[0], Matches(rows[0], names, ks, thresholds)) + JoinDesired(rows[1..], names, ks, thresholds)
  }

  lemma {:induction false} JoinDesiredSubset(rows: seq<Row>, names: seq<string>, ks: seq<int>, thresholds: seq<real>, x: Row)
    requires x in JoinDesired(rows, names, ks, thresholds)
    ensures x in rows && x.instance in names && x.k in ks && x.threshold in thresholds
  {
    var m := Matches(rows[0], names, ks, thresholds);
    if x in Repeat(rows[0], m) {
      assert m > 0;
      assert multiset(names)[rows[0].instance] > 0;
      assert multiset(ks)[rows[0].k] > 0;
      assert multiset(thresholds)[rows[0].threshold] > 0;
    } else {
      JoinDesiredSubset(rows[1..], names, ks, thresholds, x);
    }
  }

  predicate Desired(r: Row, names: seq<string>, ks: seq<int>, thresholds: seq<real>) {
    r.instance in names && r.k in ks && r.threshold in thresholds
  }

  lemma CountOfNoDup<T>(s: seq<T>, x: T)
    requires NoDup(s)
    ensures multiset(s)[x] == if x in s then 1 else 0
  {
    NoDupCount(s, x);
  }

  /** With duplicate-free lists the join keeps exactly the desired rows,
      once each, in order. */
  lemma {:induction false} JoinDesiredIsFilter(rows: seq<Row>, names: seq<string>, ks: seq<int>, thresholds: seq<real>)
    requires NoDup(names) && NoDup(ks) && NoDup(thresholds)
    ensures JoinDesired(rows, names, ks, thresholds) ==
      Filter(rows, (r: Row) => Desired(r, names, ks, thresholds))
  {
    if rows != [] {
      JoinDesiredIsFilter(rows[1..], names, ks, thresholds);
      var r := rows[0];
      CountOfNoDup(names, r.instance);
      CountOfNoDup(ks, r.k);
      CountOfNoDup(thresholds, r.threshold);
      if Desired(r, names, ks, thresholds) {
        assert Repeat(r, Matches(r, names, ks, thresholds)) == [r];
      } else {
        assert Matches(r, names, ks, thresholds) == 0;
        assert Repeat(r, 0) == [];
      }
    }
  }

  /** `filter_desired_instances`: with no graphs file every row is kept;
      otherwise the inner join with graphs × ks × thresholds. An
      unparsable file is the `expect` panic. */
  function FilterDesiredInstances(rows: seq<Row>, graphs: GraphsCsv, ks: seq<int>, thresholds: seq<real>)
    : (r: Result<seq<Row>, string>)
    ensures graphs.NotFound? ==> r == Ok(rows)
    ensures graphs.Malformed? <==> r.Err?
    ensures r.Ok? ==> forall x :: x in r.value ==> x in rows
    ensures graphs.Graphs? && NoDup(graphs.names) && NoDup(ks) && NoDup(thresholds) ==>
      r == Ok(Filter(rows, (x: Row) => Desired(x, graphs.names, ks, thresholds)))
  {
    match graphs
    case NotFound => Ok(rows)
    case Malformed => Err("Failed to read graphs file")
    case Graphs(names) =>
      assert NoDup(names) && NoDup(ks) && NoDup(thresholds) ==>
        JoinDesired(rows, names, ks, thresholds) == Filter(rows, (x: Row) => Desired(x, names, ks, thresholds)) by {
        if NoDup(names) && NoDup(ks) && NoDup(thresholds) {
          JoinDesiredIsFilter(rows, names, ks, thresholds);
        }
      }
      assert forall x :: x in JoinDesired(rows, names, ks, thresholds) ==> x in rows by {
        forall x | x in JoinDesired(rows, names, ks, thresholds) ensures x in rows {
          JoinDesiredSubset(rows, names, ks, thresholds, x);
        }
      }
      Ok(JoinDesired(rows, names, ks, thresholds))
  }
}
