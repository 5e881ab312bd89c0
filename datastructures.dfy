/** The value types shared by the parser, the solver and the simulator
    (instances, algorithms, portfolios), the run configuration with its
    command-line override rules, and the construction of a random
    portfolio. */
module Datastructures {
  import opened Wrappers
  import opened Seqs
  import opened Text

  /** 2^32: values of a `u32` lie below it. */
  const U32_LIMIT: int := 0x1_0000_0000

  /** `u32::MAX as f64`. */
  const U32_MAX_F64: real := 4294967295.0

  /** The `as u32` cast of an `i64`: keeps the low 32 bits (two's
      complement), which Dafny's Euclidean `%` computes. */
  function U32Cast(x: int): (r: nat)
    ensures r < U32_LIMIT
    ensures 0 <= x < U32_LIMIT ==> r == x
    ensures (r - x) % U32_LIMIT == 0
  {
    x % U32_LIMIT
  }

  /** A benchmark instance: graph name, number of blocks, imbalance bound. */
  datatype Instance = Instance(graph: string, k: nat, threshold: real)

  /** An algorithm configuration: name and thread count. */
  datatype Algorithm = Algorithm(name: string, threads: nat)

  /** Derived `PartialOrd` on `Instance`: lexicographic over the fields in
      declaration order (a real threshold is never NaN here). */
  predicate InstanceLe(a: Instance, b: Instance) {
    if a.graph != b.graph then StrLe(a.graph, b.graph)
    else if a.k != b.k then a.k < b.k
    else a.threshold <= b.threshold
  }

  /** Derived `PartialOrd` on `Algorithm`: name first, then threads. */
  predicate AlgorithmLe(a: Algorithm, b: Algorithm) {
    if a.name != b.name then StrLe(a.name, b.name) else a.threads <= b.threads
  }

  lemma InstanceLeTotalOrder()
    ensures TotalPreorder(InstanceLe) && Antisymmetric(InstanceLe)
  {
    forall a: Instance, b: Instance ensures InstanceLe(a, b) || InstanceLe(b, a) {
      StrLeTotal(a.graph, b.graph);
    }
    forall a: Instance, b: Instance, c: Instance | InstanceLe(a, b) && InstanceLe(b, c)
      ensures InstanceLe(a, c)
    {
      if a.graph != b.graph && b.graph != c.graph {
        StrLeTransitive(a.graph, b.graph, c.graph);
        if a.graph == c.graph { StrLeAntisymmetric(a.graph, b.graph); }
      }
    }
    forall a: Instance, b: Instance | InstanceLe(a, b) && InstanceLe(b, a) ensures a == b {
      if a.graph != b.graph { StrLeAntisymmetric(a.graph, b.graph); }
    }
  }

  lemma AlgorithmLeTotalOrder()
    ensures TotalPreorder(AlgorithmLe) && Antisymmetric(AlgorithmLe)
  {
    forall a: Algorithm, b: Algorithm ensures AlgorithmLe(a, b) || AlgorithmLe(b, a) {
      StrLeTotal(a.name, b.name);
    }
    forall a: Algorithm, b: Algorithm, c: Algorithm | AlgorithmLe(a, b) && AlgorithmLe(b, c)
      ensures AlgorithmLe(a, c)
    {
      if a.name != b.name && b.name != c.name {
        StrLeTransitive(a.name, b.name, c.name);
        if a.name == c.name { StrLeAntisymmetric(a.name, b.name); }
      }
    }
    forall a: Algorithm, b: Algorithm | AlgorithmLe(a, b) && AlgorithmLe(b, a) ensures a == b {
      if a.name != b.name { StrLeAntisymmetric(a.name, b.name); }
    }
  }

  /** `Display for Algorithm`: the name, one space, the thread count. */
  function Display(a: Algorithm): string {
    a.name + " " + NatToString(a.threads)
  }

  /** Position of the last space, if any. */
  function LastSpace(s: string): (r: Option<nat>)
    ensures r.Some? ==> r.value < |s| && s[r.value] == ' '
    ensures r.Some? ==> forall j :: r.value < j < |s| ==> s[j] != ' '
    ensures r.None? ==> forall j :: 0 <= j < |s| ==> s[j] != ' '
  {
    if s == [] then None
    else if s[|s| - 1] == ' ' then Some(|s| - 1)
    else LastSpace(s[..|s| - 1])
  }

  /** Reads back a displayed algorithm: the text after the last space must
      be a non-empty run of digits. */
  function ParseDisplay(s: string): Option<Algorithm> {
    match LastSpace(s)
    case None => None
    case Some(i) =>
      var digits := s[i + 1..];
      if digits != [] && forall j :: 0 <= j < |digits| ==> IsDigit(digits[j])
      then Some(Algorithm(s[..i], ParseDigits(digits)))
      else None
  }

  /** Displaying loses nothing: the thread count contains no space, so the
      last space separates it from the name. */
  lemma DisplayRoundTrip(a: Algorithm)
    ensures ParseDisplay(Display(a)) == Some(a)
  {
    var s := Display(a);
    var d := NatToString(a.threads);
    assert s[|a.name|] == ' ';
    assert forall j :: |a.name| < j < |s| ==> s[j] == d[j - |a.name| - 1];
    var i := LastSpace(s).value;
    assert i == |a.name|;
    assert s[i + 1..] == d;
    assert s[..i] == a.name;
    ParseNatToString(a.threads);
  }

  /** Distinct algorithms display differently (the portfolio output and the
      simulated portfolio names rely on it). */
  lemma DisplayInjective(a: Algorithm, b: Algorithm)
    requires Display(a) == Display(b)
    ensures a == b
  {
    DisplayRoundTrip(a);
    DisplayRoundTrip(b);
  }

  /** A resource assignment: each algorithm with its share of the cores. */
  datatype Portfolio = Portfolio(name: string, assignments: seq<(Algorithm, real)>)

  // ---------------------------------------------------------------------
  // Configuration

  /** The fields of the JSON configuration file. */
  datatype ConfigValues = ConfigValues(
    files: seq<string>,
    graphs: string,
    ks: seq<int>,
    thresholds: seq<real>,
    numCores: nat,
    slowdownRatio: real,
    numSeeds: nat,
    outDir: string,
    timeout: real)

  /** The optional command-line overrides. */
  datatype Args = Args(
    files: Option<seq<string>>,
    ks: Option<seq<int>>,
    thresholds: Option<seq<real>>,
    graphs: Option<string>,
    slowdownRatio: Option<real>,
    numSeeds: Option<nat>,
    outDir: Option<string>,
    timeout: Option<real>,
    numCores: Option<nat>)

  function OrElse<T>(o: Option<T>, d: T): T {
    if o.Some? then o.value else d
  }

  /** The configuration `from_cli` produces from file values `v`: every
      option given on the command line replaces the file's value, and a
      slowdown ratio of zero means "no limit" (`u32::MAX`). */
  function Merged(v: ConfigValues, a: Args): ConfigValues {
    var ratio := OrElse(a.slowdownRatio, v.slowdownRatio);
    ConfigValues(
      OrElse(a.files, v.files),
      OrElse(a.graphs, v.graphs),
      OrElse(a.ks, v.ks),
      OrElse(a.thresholds, v.thresholds),
      OrElse(a.numCores, v.numCores),
      if ratio == 0.0 then U32_MAX_F64 else ratio,
      OrElse(a.numSeeds, v.numSeeds),
      OrElse(a.outDir, v.outDir),
      OrElse(a.timeout, v.timeout))
  }

  /** After merging, the slowdown ratio is never zero, and a non-zero ratio
      is the command line's if given, the file's otherwise. */
  lemma MergedSlowdownRatio(v: ConfigValues, a: Args)
    ensures Merged(v, a).slowdownRatio != 0.0
    ensures a.slowdownRatio.Some? && a.slowdownRatio.value != 0.0 ==>
      Merged(v, a).slowdownRatio == a.slowdownRatio.value
    ensures a.slowdownRatio.None? && v.slowdownRatio != 0.0 ==>
      Merged(v, a).slowdownRatio == v.slowdownRatio
  {
  }

  /** Applying the same command line twice changes nothing more. */
  lemma MergedIdempotent(v: ConfigValues, a: Args)
    ensures Merged(Merged(v, a), a) == Merged(v, a)
  {
  }

  /** Without overrides only the zero-ratio rule applies. */
  lemma MergedNoOverrides(v: ConfigValues)
    requires v.slowdownRatio != 0.0
    ensures Merged(v, Args(None, None, None, None, None, None, None, None, None)) == v
  {
  }

  /** The run configuration, updated in place by the command-line rules. */
  class Config {
    var files: seq<string>
    var graphs: string
    var ks: seq<int>
    var thresholds: seq<real>
    var numCores: nat
    var slowdownRatio: real
    var numSeeds: nat
    var outDir: string
    var timeout: real

    function Values(): ConfigValues
      reads this
    {
      ConfigValues(files, graphs, ks, thresholds, numCores, slowdownRatio, numSeeds, outDir, timeout)
    }

    /** The configuration as deserialised from the file. */
    constructor FromFile(v: ConfigValues)
      ensures Values() == v
    {
      files := v.files;
      graphs := v.graphs;
      ks := v.ks;
      thresholds := v.thresholds;
      numCores := v.numCores;
      slowdownRatio := v.slowdownRatio;
      numSeeds := v.numSeeds;
      outDir := v.outDir;
      timeout := v.timeout;
    }

    /** Overwrites the fields one at a time, as `from_cli` does. */
    method ApplyCli(a: Args)
      modifies this
      ensures Values() == Merged(old(Values()), a)
    {
      slowdownRatio := OrElse(a.slowdownRatio, slowdownRatio);
      if slowdownRatio == 0.0 {
        slowdownRatio := U32_MAX_F64;
      }
      outDir := OrElse(a.outDir, outDir);
      timeout := OrElse(a.timeout, timeout);
      numCores := OrElse(a.numCores, numCores);
      numSeeds := OrElse(a.numSeeds, numSeeds);
      graphs := OrElse(a.graphs, graphs);
      files := OrElse(a.files, files);
      ks := OrElse(a.ks, ks);
      thresholds := OrElse(a.thresholds, thresholds);
    }
  }

  /** `Config::from_cli`: `file` is the deserialised configuration file, or
      `None` when it cannot be read or parsed (the `?` error paths). */
  method FromCli(file: Option<ConfigValues>, a: Args) returns (r: Result<Config, string>)
    ensures r.Ok? <==> file.Some?
    ensures r.Ok? ==> fresh(r.value) && r.value.Values() == Merged(file.value, a)
  {
    if file.None? {
      return Err("cannot read configuration file");
    }
    var config := new Config.FromFile(file.value);
    config.ApplyCli(a);
    return Ok(config);
  }

  // ---------------------------------------------------------------------
  // Random portfolio

  /** A seeded generator: `draw` is its raw output stream and `pos` how much
      of it has been consumed. */
  class Rng {
    const draw: nat -> nat
    var pos: nat

    constructor(draw: nat -> nat)
      ensures this.draw == draw && pos == 0
    {
      this.draw := draw;
      pos := 0;
    }

    /** `gen_range(lo..=hi)`: a value in the closed range. */
    method GenRange(lo: int, hi: int) returns (x: int)
      requires lo <= hi
      modifies this
      ensures lo <= x <= hi
      ensures x == lo + draw(old(pos)) % (hi - lo + 1) && pos == old(pos) + 1
    {
      x := lo + draw(pos) % (hi - lo + 1);
      pos := pos + 1;
    }
  }

  /** `partial_shuffle(rng, amount)`: Fisher-Yates over the last `amount`
      positions, each swapped with a uniformly chosen position at or before
      it. The chosen elements are `a[end..]`; the array stays a
      permutation. */
  method PartialShuffle(a: array<Algorithm>, amount: nat, rng: Rng) returns (end: nat)
    modifies a, rng
    ensures end == if amount >= a.Length then 0 else a.Length - amount
    ensures multiset(a[..]) == multiset(old(a[..]))
  {
    end := if amount >= a.Length then 0 else a.Length - amount;
    var i := a.Length;
    while i > end
      invariant end <= i <= a.Length
      invariant multiset(a[..]) == multiset(old(a[..]))
    {
      i := i - 1;
      var j := rng.GenRange(0, i);
      ghost var before := a[..];
      a[i], a[j] := a[j], a[i];
      assert a[..] == before[i := before[j]][j := before[i]];
      SwapPermutes(before, i, j);
    }
  }

  /** The core counts: differences of consecutive points of
      `[0] ++ cuts ++ [total]`. */
  function CoreParts(cuts: seq<int>, total: int): (parts: seq<int>)
    ensures |parts| == |cuts| + 1
  {
    var upper := cuts + [total];
    var lower := [0] + cuts;
    seq(|cuts| + 1, i requires 0 <= i < |cuts| + 1 => upper[i] - lower[i])
  }

  lemma CorePartsSnoc(cuts: seq<int>, c: int, total: int)
    ensures CoreParts(cuts + [c], total) == CoreParts(cuts, c) + [total - c]
  {
  }

  /** The parts telescope to the total, whatever the cut points. */
  lemma {:induction false} CorePartsSum(cuts: seq<int>, total: int)
    ensures SumInt(CoreParts(cuts, total)) == total
  {
    if cuts != [] {
      var p := cuts[..|cuts| - 1];
      var c := cuts[|cuts| - 1];
      assert cuts == p + [c];
      CorePartsSnoc(p, c, total);
      CorePartsSum(p, c);
      assert CoreParts(cuts, total)[..|cuts|] == CoreParts(p, c);
    } else {
      assert CoreParts(cuts, total) == [total];
      assert SumInt([total]) == SumInt([]) + total;
    }
  }

  /** Sorted cut points within `0..=total` give parts that are never
      negative. */
  lemma CorePartsNonNegative(cuts: seq<int>, total: int)
    requires forall i, j :: 0 <= i < j < |cuts| ==> cuts[i] <= cuts[j]
    requires forall i :: 0 <= i < |cuts| ==> 0 <= cuts[i] <= total
    requires total >= 0
    ensures forall i :: 0 <= i < |cuts| + 1 ==> CoreParts(cuts, total)[i] >= 0
  {
    forall i | 0 <= i < |cuts| + 1 ensures CoreParts(cuts, total)[i] >= 0 {
      if 0 < i < |cuts| {
        assert cuts[i - 1] <= cuts[i];
      }
    }
  }

  lemma IntLeTotalPreorder()
    ensures TotalPreorder((x: int, y: int) => x <= y)
  {
  }

  /** Sum of integers read as reals (the `as f64` casts are exact). */
  lemma {:induction false} SumAsReal(xs: seq<int>)
    ensures Sum(Map(xs, (x: int) => x as real)) == SumInt(xs) as real
  {
    if xs != [] {
      var p := xs[..|xs| - 1];
      SumAsReal(p);
      assert Map(xs, (x: int) => x as real)[..|xs| - 1] == Map(p, (x: int) => x as real);
    }
  }

  function MinNat(a: nat, b: nat): nat { if a <= b then a else b }

  /** The single-threaded algorithms, the only ones a random portfolio may
      use. */
  function SingleThreaded(algorithms: seq<Algorithm>): seq<Algorithm> {
    Filter(algorithms, (a: Algorithm) => a.threads == 1)
  }

  /** Draws `count` cut points in `1..=numCores`. */
  method DrawCuts(rng: Rng, count: nat, numCores: nat) returns (cuts: seq<int>)
    requires numCores >= 1
    modifies rng
    ensures |cuts| == count
    ensures forall i :: 0 <= i < |cuts| ==> 1 <= cuts[i] <= numCores
  {
    cuts := [];
    while |cuts| < count
      invariant |cuts| <= count
      invariant forall i :: 0 <= i < |cuts| ==> 1 <= cuts[i] <= numCores
    {
      var c := rng.GenRange(1, numCores);
      cuts := cuts + [c];
    }
  }

  /** Sorting the cut points keeps them in range and orders them, so the
      parts are non-negative and sum to the total. */
  lemma SortedCutParts(cuts: seq<int>, total: nat)
    requires forall i :: 0 <= i < |cuts| ==> 1 <= cuts[i] <= total
    ensures var parts := CoreParts(Sort(cuts, (x: int, y: int) => x <= y), total);
      && SumInt(parts) == total
      && forall i :: 0 <= i < |parts| ==> parts[i] >= 0
  {
    var sorted := Sort(cuts, (x: int, y: int) => x <= y);
    IntLeTotalPreorder();
    SortSorted(cuts, (x: int, y: int) => x <= y);
    forall i | 0 <= i < |sorted| ensures 1 <= sorted[i] <= total {
      assert sorted[i] in multiset(cuts);
    }
    CorePartsSum(sorted, total);
    CorePartsNonNegative(sorted, total);
  }

  /** Pairs each chosen algorithm with its part, as an `f64` core count. */
  function Assign(chosen: seq<Algorithm>, parts: seq<int>): (r: seq<(Algorithm, real)>)
    requires |chosen| == |parts|
    ensures |r| == |chosen|
    ensures Map(r, (x: (Algorithm, real)) => x.0) == chosen
    ensures Sum(Map(r, (x: (Algorithm, real)) => x.1)) == SumInt(parts) as real
  {
    var r := seq(|chosen|, i requires 0 <= i < |chosen| => (chosen[i], parts[i] as real));
    assert Map(r, (x: (Algorithm, real)) => x.1) == Map(parts, (x: int) => x as real);
    SumAsReal(parts);
    r
  }

  /** The elements a partial shuffle leaves at the tail come from the input,
      and are distinct when the input is. */
  lemma ShuffledTail(before: seq<Algorithm>, after: seq<Algorithm>, end: nat)
    requires multiset(after) == multiset(before) && end <= |after|
    ensures forall x :: x in after[end..] ==> x in before
    ensures NoDup(before) ==> NoDup(after[end..])
  {
    assert after == after[..end] + after[end..];
    forall x | x in after[end..] ensures x in before {
      assert x in multiset(after);
    }
    if NoDup(before) {
      NoDupPermutation(before, after);
    }
  }

  /** What a random portfolio over `algorithms` with `numCores` cores
      promises: its name, its size, single-threaded members drawn from the
      input (distinct when the input is), non-negative shares summing to
      the cores. */
  predicate RandomPortfolioShape(p: Portfolio, algorithms: seq<Algorithm>, numCores: nat) {
    && p.name == "random_portfolio"
    && 1 <= |p.assignments| <= MinNat(|SingleThreaded(algorithms)|, numCores)
    && (forall i :: 0 <= i < |p.assignments| ==>
          p.assignments[i].0 in algorithms && p.assignments[i].0.threads == 1
          && p.assignments[i].1 >= 0.0)
    && Sum(Map(p.assignments, (x: (Algorithm, real)) => x.1)) == numCores as real
    && (NoDup(algorithms) ==> NoDup(Map(p.assignments, (x: (Algorithm, real)) => x.0)))
  }

  lemma AssignShape(algorithms: seq<Algorithm>, numCores: nat, chosen: seq<Algorithm>, parts: seq<int>)
    requires 1 <= |chosen| <= MinNat(|SingleThreaded(algorithms)|, numCores)
    requires |parts| == |chosen|
    requires forall x :: x in chosen ==> x in SingleThreaded(algorithms)
    requires NoDup(SingleThreaded(algorithms)) ==> NoDup(chosen)
    requires SumInt(parts) == numCores && forall i :: 0 <= i < |parts| ==> parts[i] >= 0
    ensures RandomPortfolioShape(Portfolio("random_portfolio", Assign(chosen, parts)), algorithms, numCores)
  {
    var r := Assign(chosen, parts);
    forall i | 0 <= i < |r|
      ensures r[i].0 in algorithms && r[i].0.threads == 1 && r[i].1 >= 0.0
    {
      AssignAt(chosen, parts, i);
      assert chosen[i] in chosen;
    }
    if NoDup(algorithms) {
      FilterNoDup(algorithms, (a: Algorithm) => a.threads == 1);
    }
  }

  lemma AssignAt(chosen: seq<Algorithm>, parts: seq<int>, i: nat)
    requires |chosen| == |parts| && i < |chosen|
    ensures Assign(chosen, parts)[i] == (chosen[i], parts[i] as real)
  {
  }

  /** `Portfolio::random`: picks between one and min(#single-threaded,
      num_cores) single-threaded algorithms and splits the cores among them
      at sorted random cut points. `Err` is the `gen_range` panic on an
      empty range (no cores). */
  method RandomPortfolio(algorithms: seq<Algorithm>, numCores: nat, rng: Rng)
    returns (r: Result<Portfolio, string>)
    modifies rng
    ensures SingleThreaded(algorithms) == [] ==> r == Ok(Portfolio("random_portfolio", []))
    ensures SingleThreaded(algorithms) != [] ==> (r.Ok? <==> numCores > 0)
    ensures r.Ok? && SingleThreaded(algorithms) != [] ==>
      RandomPortfolioShape(r.value, algorithms, numCores)
  {
    var singles := SingleThreaded(algorithms);
    if |singles| == 0 {
      return Ok(Portfolio("random_portfolio", []));
    }
    if numCores == 0 {
      return Err("cannot sample empty range");
    }
    var size := rng.GenRange(1, MinNat(|singles|, numCores));
    var cuts := DrawCuts(rng, size - 1, numCores);
    var parts := CoreParts(Sort(cuts, (x: int, y: int) => x <= y), numCores);
    SortedCutParts(cuts, numCores);

    var arr := new Algorithm[|singles|](i requires 0 <= i < |singles| => singles[i]);
    assert arr[..] == singles;
    var end := PartialShuffle(arr, size, rng);
    var chosen := arr[end..];
    ShuffledTail(singles, arr[..], end);
    AssignShape(algorithms, numCores, chosen, parts);
    return Ok(Portfolio("random_portfolio", Assign(chosen, parts)));
  }
}
