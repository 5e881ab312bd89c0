/** Performance profiles of a set of algorithms over a set of instances:
    every algorithm's per-instance mean objective is divided by the best
    mean on that instance, the ratios are sorted, and the points where the
    sorted ratios step up are emitted as (algorithm, fraction, ratio). The
    dataframe aggregation (a group-by mean and a group-by minimum) is
    written as functions; the loops filling the per-algorithm lists and
    the output are a method proved equal to the specification
    `Profiles`. */
module PerformanceProfiles {
  import opened Wrappers
  import opened Seqs

  /** A row of the input table: one run's objective on an instance. */
  datatype Obs = Obs(instance: string, algorithm: string, objective: real)

  /** A row of the output table. */
  datatype Point = Point(algorithm: string, fraction: real, ratio: real)

  /** `performance_profile_fraction_scaling`. */
  const FRACTION_SCALING: real := 1.0

  // ---------------------------------------------------------------------
  // The group-by aggregations

  /** The per-(instance, algorithm) mean objectives (`index`). */
  type Index = map<(string, string), real>

  function Sum(xs: seq<real>): real {
    if xs == [] then 0.0 else xs[0] + Sum(xs[1..])
  }

  function RunOf(inst: string, a: string): Obs -> bool {
    (o: Obs) => o.instance == inst && o.algorithm == a
  }

  /** The objectives of the runs of one algorithm on one instance. */
  function Objectives(rows: seq<Obs>, inst: string, a: string): seq<real> {
    Map(Filter(rows, RunOf(inst, a)), (o: Obs) => o.objective)
  }

  function MeanOf(xs: seq<real>): real
    requires xs != []
  {
    Sum(xs) / |xs| as real
  }

  /** The (instance, algorithm) pairs that have a run. */
  function RunKeys(rows: seq<Obs>): set<(string, string)> {
    set o | o in rows :: (o.instance, o.algorithm)
  }

  /** The table restricted to the given algorithms, grouped by instance
      and algorithm, averaged. */
  function GroupMeans(rows: seq<Obs>, algos: seq<string>): (index: Index)
    ensures forall k :: k in index <==> k in RunKeys(rows) && k.1 in algos
  {
    map k | k in RunKeys(rows) && k.1 in algos :: var xs := Objectives(rows, k.0, k.1); if xs == [] then 0.0 else MeanOf(xs)
  }

  /** A pair has a mean exactly when one of the given algorithms ran on the
      instance, and the mean is that of the pair's objectives. */
  lemma GroupMeansAt(rows: seq<Obs>, algos: seq<string>, inst: string, a: string)
    ensures (inst, a) in GroupMeans(rows, algos) <==> a in algos && exists o :: o in rows && o.instance == inst && o.algorithm == a
    ensures (inst, a) in GroupMeans(rows, algos) ==>
      Objectives(rows, inst, a) != [] && GroupMeans(rows, algos)[(inst, a)] == MeanOf(Objectives(rows, inst, a))
  {
    var group := Filter(rows, RunOf(inst, a));
    if (inst, a) in RunKeys(rows) {
      var o :| o in rows && (o.instance, o.algorithm) == (inst, a);
      assert o in group;
    }
    if exists o :: o in rows && o.instance == inst && o.algorithm == a {
      var o :| o in rows && o.instance == inst && o.algorithm == a;
      assert (o.instance, o.algorithm) in RunKeys(rows);
    }
  }

  /** `best_per_instance`: the least mean on an instance over the
      algorithms; absent when none of them ran on it. */
  function Best(index: Index, algos: seq<string>, inst: string): Option<real> {
    if algos == [] then None
    else
      var rest := Best(index, algos[1..], inst);
      if (inst, algos[0]) !in index then rest
      else if rest.Some? && rest.value < index[(inst, algos[0])] then rest
      else Some(index[(inst, algos[0])])
  }

  /** The best mean exists exactly when some algorithm ran on the
      instance; it is at most every algorithm's mean and equals one of
      them. */
  lemma {:induction false} BestFacts(index: Index, algos: seq<string>, inst: string)
    ensures Best(index, algos, inst).Some? <==> exists a :: a in algos && (inst, a) in index
    ensures Best(index, algos, inst).Some? ==>
      forall a :: a in algos && (inst, a) in index ==> Best(index, algos, inst).value <= index[(inst, a)]
    ensures Best(index, algos, inst).Some? ==> exists a :: a in algos && (inst, a) in index && index[(inst, a)] == Best(index, algos, inst).value
  {
    if algos != [] {
      BestFacts(index, algos[1..], inst);
      assert forall a :: a in algos <==> a == algos[0] || a in algos[1..];
    }
  }

  // ---------------------------------------------------------------------
  // Ratios

  /** The performance ratio of an objective against the best one, with the
      cases for a best of zero. */
  function Ratio(obj: real, best: real): real {
    if best != 0.0 then obj / best
    else if obj == 0.0 then 1.0
    else obj + 1.0
  }

  /** Against a positive best, the ratio is at least 1 exactly when the
      objective is at least the best, and 1 exactly when it equals it. */
  lemma RatioAgainstPositive(obj: real, best: real)
    requires best > 0.0
    ensures Ratio(obj, best) >= 1.0 <==> obj >= best
    ensures Ratio(obj, best) == 1.0 <==> obj == best
    ensures Ratio(obj, best) * best == obj
  {
    var r := obj / best;
    assert r * best == obj;
    if r >= 1.0 {
      assert r * best >= 1.0 * best;
    } else {
      assert r * best < 1.0 * best;
    }
  }

  /** Against a best of zero, a non-negative objective has a ratio of at
      least 1, and only an objective of zero has a ratio of exactly 1. */
  lemma RatioAgainstZero(obj: real)
    ensures obj >= 0.0 ==> Ratio(obj, 0.0) >= 1.0
    ensures Ratio(obj, 0.0) == 1.0 <==> obj == 0.0
  {
  }

  function IsSolved(index: Index, algos: seq<string>): string -> bool {
    (x: string) => Best(index, algos, x).Some?
  }

  /** The instances that get ratios, in order; the others are the unsolved
      ones. */
  function Solved(index: Index, algos: seq<string>, instances: seq<string>): (s: seq<string>)
    ensures |s| <= |instances|
    ensures forall x :: x in s <==> x in instances && Best(index, algos, x).Some?
  {
    Filter(instances, IsSolved(index, algos))
  }

  /** The unsolved instances are exactly those none of the algorithms ran
      on. */
  lemma SolvedMember(rows: seq<Obs>, algos: seq<string>, instances: seq<string>, x: string)
    ensures x in Solved(GroupMeans(rows, algos), algos, instances) <==>
      x in instances && exists o :: o in rows && o.instance == x && o.algorithm in algos
  {
    var index := GroupMeans(rows, algos);
    BestFacts(index, algos, x);
    if exists o :: o in rows && o.instance == x && o.algorithm in algos {
      var o :| o in rows && o.instance == x && o.algorithm in algos;
      GroupMeansAt(rows, algos, x, o.algorithm);
    }
    if Best(index, algos, x).Some? {
      var a :| a in algos && (x, a) in index;
      GroupMeansAt(rows, algos, x, a);
    }
  }

  lemma SolvedSnoc(index: Index, algos: seq<string>, instances: seq<string>, x: string)
    ensures Solved(index, algos, instances + [x]) ==
      Solved(index, algos, instances) + (if Best(index, algos, x).Some? then [x] else [])
  {
    FilterSnoc(instances, x, IsSolved(index, algos));
  }

  /** Every algorithm ran on every solved instance; otherwise the lookup
      `index.loc[(instance, algo)]` fails. */
  predicate Complete(index: Index, algos: seq<string>, solved: seq<string>) {
    forall x, a :: x in solved && a in algos ==> (x, a) in index
  }

  /** The ratio of one algorithm on one instance. */
  function RatioOf(index: Index, algos: seq<string>, inst: string, a: string): real
    requires a in algos && (inst, a) in index
  {
    BestFacts(index, algos, inst);
    Ratio(index[(inst, a)], Best(index, algos, inst).value)
  }

  /** `ratios[algo]`: one ratio per solved instance, in instance order. */
  function Ratios(index: Index, algos: seq<string>, solved: seq<string>, a: string): (r: seq<real>)
    requires a in algos && forall x :: x in solved ==> (x, a) in index
    ensures |r| == |solved|
  {
    seq(|solved|, i requires 0 <= i < |solved| => RatioOf(index, algos, solved[i], a))
  }

  lemma RatiosSnoc(index: Index, algos: seq<string>, solved: seq<string>, x: string, a: string)
    requires a in algos && forall y :: y in solved + [x] ==> (y, a) in index
    ensures Ratios(index, algos, solved + [x], a) == Ratios(index, algos, solved, a) + [RatioOf(index, algos, x, a)]
  {
  }

  /** Where the best mean is positive, no algorithm's ratio is below 1,
      and the ratio is exactly 1 for the algorithms attaining the best. */
  lemma RatiosAtLeastOne(index: Index, algos: seq<string>, solved: seq<string>, a: string, i: nat)
    requires a in algos && forall x :: x in solved ==> (x, a) in index
    requires i < |solved| && Best(index, algos, solved[i]).Some? && Best(index, algos, solved[i]).value > 0.0
    ensures Ratios(index, algos, solved, a)[i] >= 1.0
    ensures Ratios(index, algos, solved, a)[i] == 1.0 <==> index[(solved[i], a)] == Best(index, algos, solved[i]).value
  {
    var x := solved[i];
    assert solved[i] in solved;
    BestFacts(index, algos, x);
    RatioAgainstPositive(index[(x, a)], Best(index, algos, x).value);
  }

  // ---------------------------------------------------------------------
  // Step points

  function RealLe(x: real, y: real): bool {
    x <= y
  }

  lemma RealLeTotal()
    ensures TotalPreorder(RealLe)
  {
  }

  /** The points of the pairs (rs[i], rs[i + 1]) with i < k that differ:
      fraction i / n, ratio rs[i]. */
  function StepsUpTo(a: string, rs: seq<real>, n: nat, k: nat): seq<Point>
    requires n > 0 && k <= |rs|
  {
    if k == 0 then []
    else
      StepsUpTo(a, rs, n, k - 1) +
      (if k < |rs| && rs[k - 1] != rs[k] then [Point(a, (k - 1) as real * FRACTION_SCALING / n as real, rs[k - 1])] else [])
  }

  function StepPoints(a: string, rs: seq<real>, n: nat): seq<Point>
    requires n > 0
  {
    StepsUpTo(a, rs, n, |rs|)
  }

  predicate AllOnes(rs: seq<real>) {
    forall i :: 0 <= i < |rs| ==> rs[i] == 1.0
  }

  /** One algorithm's part of the output: the step points of its sorted
      ratios, and the point (1, 1) when every ratio is 1. */
  function ProfileOf(a: string, ratios: seq<real>, n: nat): seq<Point>
    requires n > 0
  {
    var sorted := Sort(ratios, RealLe);
    StepPoints(a, sorted, n) + (if AllOnes(sorted) then [Point(a, 1.0, 1.0)] else [])
  }

  /** A step point sits exactly at a pair of neighbours that differ. */
  lemma {:induction false} StepsUpToMember(a: string, rs: seq<real>, n: nat, k: nat, p: Point)
    requires n > 0 && k <= |rs|
    ensures p in StepsUpTo(a, rs, n, k) <==>
      exists i :: 0 <= i < k && i + 1 < |rs| && rs[i] != rs[i + 1] && p == Point(a, i as real * FRACTION_SCALING / n as real, rs[i])
  {
    if k > 0 {
      StepsUpToMember(a, rs, n, k - 1, p);
    }
  }

  /** In a sorted list, every step point before position k has a ratio
      below rs[k]. */
  lemma {:induction false} StepsBelow(a: string, rs: seq<real>, n: nat, k: nat)
    requires n > 0 && k < |rs| && SortedBy(rs, RealLe)
    ensures forall p :: p in StepsUpTo(a, rs, n, k) ==> p.ratio < rs[k]
  {
    if k > 0 {
      StepsBelow(a, rs, n, k - 1);
      assert RealLe(rs[k - 1], rs[k]);
    }
  }

  predicate RatiosIncrease(s: seq<Point>) {
    forall i, j :: 0 <= i < j < |s| ==> s[i].ratio < s[j].ratio
  }

  /** In a sorted list, the emitted ratios are strictly increasing. */
  lemma {:induction false} StepsIncreasing(a: string, rs: seq<real>, n: nat, k: nat)
    requires n > 0 && k <= |rs| && SortedBy(rs, RealLe)
    ensures RatiosIncrease(StepsUpTo(a, rs, n, k))
  {
    if k > 0 {
      StepsIncreasing(a, rs, n, k - 1);
      StepsBelow(a, rs, n, k - 1);
      var s0 := StepsUpTo(a, rs, n, k - 1);
      var extra := if k < |rs| && rs[k - 1] != rs[k] then [Point(a, (k - 1) as real * FRACTION_SCALING / n as real, rs[k - 1])] else [];
      var s := StepsUpTo(a, rs, n, k);
      assert s == s0 + extra;
      assert RatiosIncrease(s0);
      forall i, j | 0 <= i < j < |s| ensures s[i].ratio < s[j].ratio {
        if j >= |s0| {
          assert s[j] == extra[j - |s0|] && s[j].ratio == rs[k - 1];
          assert s[i] == s0[i] && s0[i] in s0;
        } else {
          assert s[i] == s0[i] && s[j] == s0[j];
        }
      }
    }
  }

  /** A step point at position i of a sorted list is the last occurrence
      of its ratio: exactly i + 1 ratios are at most that ratio. */
  lemma StepCount(rs: seq<real>, i: nat)
    requires SortedBy(rs, RealLe) && i + 1 < |rs| && rs[i] != rs[i + 1]
    ensures |Filter(rs, (x: real) => x <= rs[i])| == i + 1
  {
    var keep := (x: real) => x <= rs[i];
    assert rs == rs[..i + 1] + rs[i + 1..];
    FilterAppend(rs[..i + 1], rs[i + 1..], keep);
    var pre, post := rs[..i + 1], rs[i + 1..];
    forall m | 0 <= m < |pre| ensures keep(pre[m]) {
      assert RealLe(rs[m], rs[i]) || m == i;
    }
    FilterAll(pre, keep);
    assert RealLe(rs[i], rs[i + 1]);
    forall m | 0 <= m < |post| ensures !keep(post[m]) {
      if m > 0 {
        assert RealLe(rs[i + 1], rs[i + 1 + m]);
      }
    }
    FilterNone(post, keep);
  }

  /** Each algorithm's output: strictly increasing step ratios, in
      increasing order of position. */
  lemma ProfileOfIncreasing(a: string, ratios: seq<real>, n: nat)
    requires n > 0
    ensures RatiosIncrease(StepPoints(a, Sort(ratios, RealLe), n))
  {
    RealLeTotal();
    SortSorted(ratios, RealLe);
    var sorted := Sort(ratios, RealLe);
    StepsIncreasing(a, sorted, n, |sorted|);
  }

  /** A list of equal ratios has no step point. */
  lemma {:induction false} StepsUpToConstant(a: string, rs: seq<real>, n: nat, k: nat)
    requires n > 0 && k <= |rs| && AllOnes(rs)
    ensures StepsUpTo(a, rs, n, k) == []
  {
    if k > 0 {
      StepsUpToConstant(a, rs, n, k - 1);
    }
  }

  /** When every ratio is 1, an algorithm's output is the single point
      (1, 1). */
  lemma ProfileOfAllOnes(a: string, ratios: seq<real>, n: nat)
    requires n > 0 && AllOnes(ratios)
    ensures ProfileOf(a, ratios, n) == [Point(a, 1.0, 1.0)]
  {
    var sorted := Sort(ratios, RealLe);
    forall i | 0 <= i < |sorted| ensures sorted[i] == 1.0 {
      assert sorted[i] in multiset(ratios);
      var j :| 0 <= j < |ratios| && ratios[j] == sorted[i];
    }
    StepsUpToConstant(a, sorted, n, |sorted|);
  }

  // ---------------------------------------------------------------------
  // The whole computation

  /** One algorithm's output. */
  function ProfileFor(index: Index, algos: seq<string>, solved: seq<string>, n: nat, a: string): seq<Point>
    requires n > 0 && a in algos && Complete(index, algos, solved)
  {
    ProfileOf(a, Ratios(index, algos, solved, a), n)
  }

  /** The output for the first k algorithms. */
  function ProfilesUpTo(index: Index, algos: seq<string>, solved: seq<string>, n: nat, k: nat): seq<Point>
    requires n > 0 && k <= |algos| && Complete(index, algos, solved)
  {
    if k == 0 then []
    else
      assert algos[k - 1] in algos;
      ProfilesUpTo(index, algos, solved, n, k - 1) + ProfileFor(index, algos, solved, n, algos[k - 1])
  }

  /** The result over the table of means. */
  function ProfilesOf(index: Index, algos: seq<string>, instances: seq<string>): (r: Result<seq<Point>, string>)
    ensures r.Ok? <==> Complete(index, algos, Solved(index, algos, instances)) && algos != [] && Solved(index, algos, instances) != []
    ensures r.Err? && !Complete(index, algos, Solved(index, algos, instances)) ==> r.error == "KeyError"
  {
    var solved := Solved(index, algos, instances);
    if !Complete(index, algos, solved) then Err("KeyError")
    else if algos == [] || solved == [] then Err("max() arg is an empty sequence")
    else Ok(ProfilesUpTo(index, algos, solved, |instances|, |algos|))
  }

  /** `performance_profiles`: a missing (instance, algorithm) mean is a
      lookup error; no algorithm or no solved instance makes the maximum
      ratio fail; otherwise every algorithm's profile, in algorithm order. */
  function Profiles(rows: seq<Obs>, algos: seq<string>, instances: seq<string>): Result<seq<Point>, string> {
    ProfilesOf(GroupMeans(rows, algos), algos, instances)
  }

  /** An instance that one of the algorithms ran on but another did not. */
  ghost predicate Gap(rows: seq<Obs>, algos: seq<string>, x: string, a: string) {
    a in algos
    && (exists o :: o in rows && o.instance == x && o.algorithm in algos)
    && !(exists o :: o in rows && o.instance == x && o.algorithm == a)
  }

  /** The solved instances are incomplete exactly when some listed
      instance has a gap. */
  lemma IncompleteIsGap(rows: seq<Obs>, algos: seq<string>, instances: seq<string>)
    ensures !Complete(GroupMeans(rows, algos), algos, Solved(GroupMeans(rows, algos), algos, instances)) <==>
      exists x, a :: x in instances && Gap(rows, algos, x, a)
  {
    var index := GroupMeans(rows, algos);
    var solved := Solved(index, algos, instances);
    if !Complete(index, algos, solved) {
      var x, a :| x in solved && a in algos && (x, a) !in index;
      SolvedMember(rows, algos, instances, x);
      GroupMeansAt(rows, algos, x, a);
      assert Gap(rows, algos, x, a);
    }
    if exists x, a :: x in instances && Gap(rows, algos, x, a) {
      var x, a :| x in instances && Gap(rows, algos, x, a);
      SolvedMember(rows, algos, instances, x);
      GroupMeansAt(rows, algos, x, a);
      assert x in solved && (x, a) !in index;
    }
  }

  /** The computation fails with a lookup error exactly when some
      algorithm never ran on a listed instance that another algorithm ran
      on. */
  lemma ProfilesKeyError(rows: seq<Obs>, algos: seq<string>, instances: seq<string>)
    ensures Profiles(rows, algos, instances) == Err("KeyError") <==> exists x, a :: x in instances && Gap(rows, algos, x, a)
  {
    IncompleteIsGap(rows, algos, instances);
  }

  /** Otherwise the computation fails exactly when there is no algorithm
      or none of them ran on a listed instance. */
  lemma ProfilesEmpty(rows: seq<Obs>, algos: seq<string>, instances: seq<string>)
    requires !exists x, a :: x in instances && Gap(rows, algos, x, a)
    ensures Profiles(rows, algos, instances).Err? <==>
      algos == [] || !exists x, o :: x in instances && o in rows && o.instance == x && o.algorithm in algos
  {
    IncompleteIsGap(rows, algos, instances);
    var index := GroupMeans(rows, algos);
    var solved := Solved(index, algos, instances);
    if solved != [] {
      var x := solved[0];
      assert x in solved;
      SolvedMember(rows, algos, instances, x);
    }
    if exists x, o :: x in instances && o in rows && o.instance == x && o.algorithm in algos {
      var x, o :| x in instances && o in rows && o.instance == x && o.algorithm in algos;
      SolvedMember(rows, algos, instances, x);
      assert x in solved;
    }
  }

  /** The state after the instances in `solved`: every algorithm ran on
      each of them, and `ratios[algo]` and `solved[algo]` hold one entry
      per solved instance. */
  ghost predicate Filled(index: Index, algos: seq<string>, solved: seq<string>,
                         ratios: map<string, seq<real>>, solvedBy: map<string, seq<string>>) {
    && Complete(index, algos, solved)
    && (forall a :: a in algos ==> a in ratios && a in solvedBy)
    && (forall a :: a in algos ==> ratios[a] == Ratios(index, algos, solved, a) && solvedBy[a] == solved)
  }

  lemma FilledSnoc(index: Index, algos: seq<string>, solved: seq<string>, inst: string,
                   ratios: map<string, seq<real>>, solvedBy: map<string, seq<string>>,
                   ratios': map<string, seq<real>>, solvedBy': map<string, seq<string>>)
    requires Filled(index, algos, solved, ratios, solvedBy)
    requires forall a :: a in algos ==> (inst, a) in index
    requires forall a :: a in algos ==> a in ratios' && a in solvedBy'
    requires forall a :: a in algos ==>
      ratios'[a] == ratios[a] + [RatioOf(index, algos, inst, a)] && solvedBy'[a] == solvedBy[a] + [inst]
    ensures Filled(index, algos, solved + [inst], ratios', solvedBy')
  {
    forall a | a in algos
      ensures ratios'[a] == Ratios(index, algos, solved + [inst], a)
    {
      RatiosSnoc(index, algos, solved, inst, a);
    }
  }

  /** The inner loop of `performance_profiles` on one solved instance:
      append every algorithm's ratio to its list and the instance to its
      solved list; `ok` is false when some algorithm has no mean on the
      instance (the lookup error). */
  method AddInstance(index: Index, algos: seq<string>, inst: string, best: real,
                     ratios: map<string, seq<real>>, solvedBy: map<string, seq<string>>)
    returns (ok: bool, ratios': map<string, seq<real>>, solvedBy': map<string, seq<string>>)
    requires NoDup(algos) && Best(index, algos, inst) == Some(best)
    requires forall a :: a in algos ==> a in ratios && a in solvedBy
    ensures ok <==> forall a :: a in algos ==> (inst, a) in index
    ensures ok ==> forall a :: a in algos ==> a in ratios' && a in solvedBy'
    ensures ok ==> forall a :: a in algos ==>
      ratios'[a] == ratios[a] + [RatioOf(index, algos, inst, a)] && solvedBy'[a] == solvedBy[a] + [inst]
  {
    ratios', solvedBy' := ratios, solvedBy;
    var j := 0;
    while j < |algos|
      invariant 0 <= j <= |algos|
      invariant forall q :: 0 <= q < j ==> (inst, algos[q]) in index
      invariant forall q :: 0 <= q < |algos| ==> algos[q] in ratios' && algos[q] in solvedBy'
      invariant forall q :: 0 <= q < j ==>
          ratios'[algos[q]] == ratios[algos[q]] + [RatioOf(index, algos, inst, algos[q])]
          && solvedBy'[algos[q]] == solvedBy[algos[q]] + [inst]
      invariant forall q :: j <= q < |algos| ==>
          ratios'[algos[q]] == ratios[algos[q]] && solvedBy'[algos[q]] == solvedBy[algos[q]]
    {
      var a := algos[j];
      if (inst, a) !in index {
        return false, ratios', solvedBy';
      }
      var obj := index[(inst, a)];
      ratios' := ratios'[a := ratios'[a] + [Ratio(obj, best)]];
      solvedBy' := solvedBy'[a := solvedBy'[a] + [inst]];
      j := j + 1;
    }
    forall a | a in algos
      ensures (inst, a) in index && a in ratios' && a in solvedBy'
      ensures ratios'[a] == ratios[a] + [RatioOf(index, algos, inst, a)] && solvedBy'[a] == solvedBy[a] + [inst]
    {
      var q :| 0 <= q < |algos| && algos[q] == a;
    }
    ok := true;
  }

  /** The output loop on one algorithm: sort its ratios and emit a point
      at every position where the next ratio differs, then the all-ones
      point. */
  method EmitProfile(a: string, ratios: seq<real>, n: nat) returns (points: seq<Point>)
    requires n > 0
    ensures points == ProfileOf(a, ratios, n)
  {
    var sorted := Sort(ratios, RealLe);
    points := [];
    var t := 0;
    while t + 1 < |sorted|
      invariant t <= |sorted| && (|sorted| > 0 ==> t < |sorted|)
      invariant points == StepsUpTo(a, sorted, n, t)
    {
      if sorted[t] != sorted[t + 1] {
        points := points + [Point(a, t as real * FRACTION_SCALING / n as real, sorted[t])];
      }
      t := t + 1;
    }
    if |sorted| > 0 {
      assert StepsUpTo(a, sorted, n, |sorted|) == StepsUpTo(a, sorted, n, t);
    }
    if AllOnes(sorted) {
      points := points + [Point(a, 1.0, 1.0)];
    }
  }

  /** The unsolved instances among `instances`. */
  ghost predicate Unsolved(index: Index, algos: seq<string>, instances: seq<string>, unsolved: set<string>) {
    forall x :: x in unsolved <==> x in instances && Best(index, algos, x).None?
  }

  /** One turn of the per-instance loop: on a lookup error `ok` is false;
      otherwise the state covers one more instance. */
  method VisitInstance(index: Index, algos: seq<string>, done: seq<string>, inst: string,
                       ratios: map<string, seq<real>>, solvedBy: map<string, seq<string>>, unsolved: set<string>)
    returns (ok: bool, ratios': map<string, seq<real>>, solvedBy': map<string, seq<string>>, unsolved': set<string>)
    requires NoDup(algos)
    requires Filled(index, algos, Solved(index, algos, done), ratios, solvedBy)
    requires Unsolved(index, algos, done, unsolved)
    ensures !ok ==> !Complete(index, algos, Solved(index, algos, done + [inst]))
    ensures ok ==> Filled(index, algos, Solved(index, algos, done + [inst]), ratios', solvedBy')
    ensures ok ==> Unsolved(index, algos, done + [inst], unsolved')
  {
    var best := Best(index, algos, inst);
    SolvedSnoc(index, algos, done, inst);
    ratios', solvedBy', unsolved' := ratios, solvedBy, unsolved;
    if best.None? {
      unsolved' := unsolved + {inst};
      return true, ratios', solvedBy', unsolved';
    }
    ok, ratios', solvedBy' := AddInstance(index, algos, inst, best.value, ratios, solvedBy);
    if !ok {
      MissingMean(index, algos, done + [inst], inst);
      return;
    }
    FilledSnoc(index, algos, Solved(index, algos, done), inst, ratios, solvedBy, ratios', solvedBy');
  }

  /** Before the first instance everything is empty. */
  lemma StartState(index: Index, algos: seq<string>, ratios: map<string, seq<real>>, solvedBy: map<string, seq<string>>)
    requires forall a :: a in algos ==> a in ratios && a in solvedBy && ratios[a] == [] && solvedBy[a] == []
    ensures Filled(index, algos, Solved(index, algos, []), ratios, solvedBy)
    ensures Unsolved(index, algos, [], {})
  {
    assert Solved(index, algos, []) == [];
  }

  /** The per-instance loop: `ratios` and `solved` filled for the solved
      instances, `unsolved` collecting the others; `ok` is false on a
      lookup error. */
  method FillRatios(index: Index, algos: seq<string>, instances: seq<string>)
    returns (ok: bool, ratios: map<string, seq<real>>, unsolved: set<string>)
    requires NoDup(algos)
    ensures ok <==> Complete(index, algos, Solved(index, algos, instances))
    ensures ok ==> forall a :: a in algos ==> a in ratios && ratios[a] == Ratios(index, algos, Solved(index, algos, instances), a)
    ensures ok ==> Unsolved(index, algos, instances, unsolved)
  {
    ratios := map a | a in algos :: [];
    var solvedBy: map<string, seq<string>> := map a | a in algos :: [];
    unsolved := {};
    StartState(index, algos, ratios, solvedBy);
    var i := 0;
    while i < |instances|
      invariant 0 <= i <= |instances|
      invariant Filled(index, algos, Solved(index, algos, instances[..i]), ratios, solvedBy)
      invariant Unsolved(index, algos, instances[..i], unsolved)
    {
      PrefixSnoc(instances, i);
      var visited;
      visited, ratios, solvedBy, unsolved := VisitInstance(index, algos, instances[..i], instances[i], ratios, solvedBy, unsolved);
      if !visited {
        IncompletePrefix(index, algos, instances, i + 1);
        return false, ratios, unsolved;
      }
      i := i + 1;
    }
    assert instances[..|instances|] == instances;
    ok := true;
  }

  /** An incomplete prefix makes the whole list incomplete. */
  lemma IncompletePrefix(index: Index, algos: seq<string>, instances: seq<string>, i: nat)
    requires i <= |instances| && !Complete(index, algos, Solved(index, algos, instances[..i]))
    ensures !Complete(index, algos, Solved(index, algos, instances))
  {
    var x, a :| x in Solved(index, algos, instances[..i]) && a in algos && (x, a) !in index;
    assert x in instances[..i];
    assert x in Solved(index, algos, instances);
  }

  /** A solved instance on which some algorithm has no mean makes the
      solved instances incomplete. */
  lemma MissingMean(index: Index, algos: seq<string>, instances: seq<string>, inst: string)
    requires inst in instances && Best(index, algos, inst).Some?
    requires !forall a :: a in algos ==> (inst, a) in index
    ensures !Complete(index, algos, Solved(index, algos, instances))
  {
    assert inst in Solved(index, algos, instances);
  }

  /** `performance_profiles`: group the table into means, fill `ratios`
      instance by instance, then emit every algorithm's profile. */
  method PerformanceProfiles(algos: seq<string>, instances: seq<string>, rows: seq<Obs>) returns (r: Result<seq<Point>, string>)
    requires NoDup(algos)
    ensures r == Profiles(rows, algos, instances)
  {
    var index := GroupMeans(rows, algos);
    var ok, ratios, unsolved := FillRatios(index, algos, instances);
    if !ok {
      return Err("KeyError");
    }
    ghost var solved := Solved(index, algos, instances);
    // The maximum ratio is only reported, but taking it fails when there
    // is no algorithm or the lists are empty.
    if |algos| == 0 || |ratios[algos[0]]| == 0 {
      return Err("max() arg is an empty sequence");
    }
    var n := |instances|;
    var output: seq<Point> := [];
    var k := 0;
    while k < |algos|
      invariant 0 <= k <= |algos|
      invariant output == ProfilesUpTo(index, algos, solved, n, k)
    {
      assert algos[k] in algos;
      var points := EmitProfile(algos[k], ratios[algos[k]], n);
      output := output + points;
      k := k + 1;
    }
    return Ok(output);
  }
}
