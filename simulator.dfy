/** Simulated portfolio execution (`portfolio_simulator.rs`): for every
    seed, each algorithm of a portfolio is given as many runs per instance
    as it has cores, drawn with replacement from its recorded runs; a
    portfolio run of an instance takes the best quality and the longest
    time of those draws. The seeded sampler of polars and `random::<f64>()`
    are passed in as oracles. */
module Simulator {
  import opened Wrappers
  import opened Seqs
  import opened Datastructures

  /** A recorded run the simulator draws from. */
  datatype SimRow = SimRow(algorithm: string, threads: nat, instance: string, quality: real, time: real, valid: bool)

  /** A drawn run, tagged with the seed of its simulation. */
  datatype Sample = Sample(row: SimRow, seed: nat)

  /** One row of a simulated portfolio run: one per instance and seed. */
  datatype Run = Run(instance: string, algorithm: string, threads: nat, valid: bool, seed: nat, quality: real, time: real)

  /** The seeded sampler: `pick(seed, n, j)` is the raw `j`-th draw of a
      seeded `sample_n` on a group of `n` rows (taken modulo `n`). */
  type Picker = (nat, nat, nat) -> nat

  /** `filter_map(Result::ok)`: the values of the successful results, in
      order. */
  function OkValues<T(!new)>(rs: seq<Result<T, string>>): (r: seq<T>)
    ensures |r| <= |rs|
    ensures forall x :: x in r <==> Ok(x) in rs
  {
    if rs == [] then []
    else
      assert rs == [rs[0]] + rs[1..];
      (if rs[0].Ok? then [rs[0].value] else []) + OkValues(rs[1..])
  }

  lemma {:induction false} OkValuesAllOk<T(!new)>(rs: seq<Result<T, string>>)
    requires forall i :: 0 <= i < |rs| ==> rs[i].Ok?
    ensures |OkValues(rs)| == |rs| && forall i :: 0 <= i < |rs| ==> OkValues(rs)[i] == rs[i].value
  {
    if rs != [] {
      OkValuesAllOk(rs[1..]);
    }
  }

  lemma {:induction false} OkValuesNoneOk<T(!new)>(rs: seq<Result<T, string>>)
    requires forall i :: 0 <= i < |rs| ==> rs[i].Err?
    ensures OkValues(rs) == []
  {
    if rs != [] {
      OkValuesNoneOk(rs[1..]);
    }
  }

  lemma {:induction false} OkValuesAppend<T(!new)>(a: seq<Result<T, string>>, b: seq<Result<T, string>>)
    ensures OkValues(a + b) == OkValues(a) + OkValues(b)
  {
    if a == [] {
      assert a + b == b;
    } else {
      assert (a + b)[0] == a[0];
      assert (a + b)[1..] == a[1..] + b;
      OkValuesAppend(a[1..], b);
    }
  }

  /** polars' lazy `concat`: an error for an empty list of frames. */
  function Concat<T>(frames: seq<seq<T>>): (r: Result<seq<T>, string>)
    ensures r.Err? <==> frames == []
  {
    if frames == [] then Err("empty container given") else Ok(Flatten(frames))
  }

  // ---------------------------------------------------------------------
  // simulate

  /** `cores as usize` for an f64 core count: truncated toward zero, and
      a negative count saturates to zero. */
  function SampleCount(cores: real): (n: nat)
    ensures cores <= 0.0 ==> n == 0
    ensures cores >= 0.0 ==> n as real <= cores < n as real + 1.0
  {
    if cores <= 0.0 then 0 else cores.Floor
  }

  /** Whether a recorded run is one of algorithm `a` with its thread
      count. */
  function RunBy(a: Algorithm): SimRow -> bool {
    (x: SimRow) => x.algorithm == a.name && x.threads == a.threads
  }

  /** The recorded runs of algorithm `a` with its thread count. */
  function RunsOf(df: seq<SimRow>, a: Algorithm): (r: seq<SimRow>)
    ensures forall x :: x in r <==> x in df && x.algorithm == a.name && x.threads == a.threads
  {
    Filter(df, RunBy(a))
  }

  /** The instances of `rows`, in order of first appearance (the groups of
      `groupby_stable`). */
  function Instances(rows: seq<SimRow>): (r: seq<string>)
    ensures NoDup(r) && forall g :: g in r <==> exists i :: 0 <= i < |rows| && rows[i].instance == g
  {
    var names := Map(rows, (x: SimRow) => x.instance);
    assert forall g :: g in names <==> exists i :: 0 <= i < |rows| && rows[i].instance == g;
    Distinct(names)
  }

  /** The rows of one instance group, in table order. */
  function InstanceGroup(rows: seq<SimRow>, g: string): (r: seq<SimRow>)
    ensures forall x :: x in r <==> x in rows && x.instance == g
    ensures g in Instances(rows) ==> |r| > 0
  {
    var r := Filter(rows, (x: SimRow) => x.instance == g);
    assert g in Instances(rows) ==> |r| > 0 by {
      if g in Instances(rows) {
        var i :| 0 <= i < |rows| && rows[i].instance == g;
        assert rows[i] in r;
      }
    }
    r
  }

  /** `sample_n(n, with_replacement = true, seed)` on a non-empty group:
      `n` rows of the group, chosen by the seeded sampler. */
  function Draw(group: seq<SimRow>, n: nat, seed: nat, pick: Picker): (r: seq<Sample>)
    requires |group| > 0
    ensures |r| == n
    ensures forall j :: 0 <= j < n ==> r[j].row in group && r[j].seed == seed
  {
    seq(n, j requires 0 <= j < n => Sample(group[pick(seed, |group|, j) % |group|], seed))
  }

  /** The groups of `rows`, one per instance in first-appearance order. */
  function Groups(rows: seq<SimRow>): (groups: seq<seq<SimRow>>)
    ensures |groups| == |Instances(rows)|
    ensures forall i :: 0 <= i < |groups| ==> |groups[i]| > 0
    ensures forall i, x :: 0 <= i < |groups| && x in groups[i] ==> x in rows && x.instance == Instances(rows)[i]
  {
    var gs := Instances(rows);
    seq(|gs|, i requires 0 <= i < |gs| => InstanceGroup(rows, gs[i]))
  }

  /** The draws for a list of non-empty groups, group after group. */
  function DrawGroups(groups: seq<seq<SimRow>>, n: nat, seed: nat, pick: Picker): seq<Sample>
    requires forall i :: 0 <= i < |groups| ==> |groups[i]| > 0
  {
    if groups == [] then []
    else Draw(groups[0], n, seed, pick) + DrawGroups(groups[1..], n, seed, pick)
  }

  /** The samples of one resource assignment `(a, cores)`: for each
      instance `a` has runs on, `cores as usize` draws among them. */
  function AssignmentSamples(df: seq<SimRow>, a: Algorithm, cores: real, seed: nat, pick: Picker): seq<Sample> {
    DrawGroups(Groups(RunsOf(df, a)), SampleCount(cores), seed, pick)
  }

  /** The samples of a list of assignments, concatenated in order. */
  function AllSamples(df: seq<SimRow>, assignments: seq<(Algorithm, real)>, seed: nat, pick: Picker): seq<Sample> {
    if assignments == [] then []
    else AssignmentSamples(df, assignments[0].0, assignments[0].1, seed, pick) + AllSamples(df, assignments[1..], seed, pick)
  }

  /** `simulate`: the samples of every assignment of the portfolio; a
      portfolio without assignments leaves `concat` nothing to join. */
  function Simulate(df: seq<SimRow>, p: Portfolio, seed: nat, pick: Picker): (r: Result<seq<Sample>, string>)
    ensures r.Err? <==> p.assignments == []
  {
    if p.assignments == [] then Err("empty container given")
    else Ok(AllSamples(df, p.assignments, seed, pick))
  }

  /** `n` draws per group; every draw is a row of one of the groups and
      carries the seed. */
  lemma {:induction false} DrawGroupsFacts(groups: seq<seq<SimRow>>, n: nat, seed: nat, pick: Picker)
    requires forall i :: 0 <= i < |groups| ==> |groups[i]| > 0
    ensures |DrawGroups(groups, n, seed, pick)| == |groups| * n
    ensures forall s :: s in DrawGroups(groups, n, seed, pick) ==> s.seed == seed && exists i :: 0 <= i < |groups| && s.row in groups[i]
  {
    if groups != [] {
      var d := Draw(groups[0], n, seed, pick);
      var rest := DrawGroups(groups[1..], n, seed, pick);
      DrawGroupsFacts(groups[1..], n, seed, pick);
      assert |groups| * n == n + (|groups| - 1) * n;
      forall s: Sample | s in d + rest ensures s.seed == seed && exists i :: 0 <= i < |groups| && s.row in groups[i] {
        if s in d {
          var j :| 0 <= j < |d| && d[j] == s;
          assert s.row in groups[0];
        } else {
          var i :| 0 <= i < |groups[1..]| && s.row in groups[1..][i];
          assert s.row in groups[i + 1];
        }
      }
    }
  }

  /** The draws from one group labelled `name` are all of instance `name`. */
  lemma DrawLabelCount(group: seq<SimRow>, name: string, n: nat, seed: nat, pick: Picker, g: string)
    requires |group| > 0
    requires forall x :: x in group ==> x.instance == name
    ensures |Filter(Draw(group, n, seed, pick), (s: Sample) => s.row.instance == g)| == if name == g then n else 0
  {
    var keep := (s: Sample) => s.row.instance == g;
    var d := Draw(group, n, seed, pick);
    assert forall j :: 0 <= j < |d| ==> d[j].row.instance == name;
    if name == g {
      FilterAll(d, keep);
    } else {
      FilterNone(d, keep);
    }
  }

  /** With every group labelled by a distinct instance, there are exactly
      `n` draws of each label and none of any other instance. */
  lemma {:induction false} DrawGroupsPerInstance(groups: seq<seq<SimRow>>, names: seq<string>, n: nat, seed: nat, pick: Picker, g: string)
    requires forall i :: 0 <= i < |groups| ==> |groups[i]| > 0
    requires |names| == |groups| && NoDup(names)
    requires forall i, x :: 0 <= i < |groups| && x in groups[i] ==> x.instance == names[i]
    ensures |Filter(DrawGroups(groups, n, seed, pick), (s: Sample) => s.row.instance == g)| == if g in names then n else 0
  {
    var keep := (s: Sample) => s.row.instance == g;
    if groups != [] {
      var d := Draw(groups[0], n, seed, pick);
      var rest := DrawGroups(groups[1..], n, seed, pick);
      FilterAppend(d, rest, keep);
      DrawLabelCount(groups[0], names[0], n, seed, pick, g);
      LabelledTail(groups, names);
      DrawGroupsPerInstance(groups[1..], names[1..], n, seed, pick, g);
    }
  }

  /** Dropping the first group keeps the groups labelled by distinct
      names; the first name is not among the others. */
  lemma LabelledTail(groups: seq<seq<SimRow>>, names: seq<string>)
    requires groups != [] && |names| == |groups| && NoDup(names)
    requires forall i :: 0 <= i < |groups| ==> |groups[i]| > 0
    requires forall i, x :: 0 <= i < |groups| && x in groups[i] ==> x.instance == names[i]
    ensures NoDup(names[1..]) && names[0] !in names[1..]
    ensures forall g :: g in names <==> g == names[0] || g in names[1..]
    ensures forall i :: 0 <= i < |groups[1..]| ==> |groups[1..][i]| > 0
    ensures forall i, x :: 0 <= i < |groups[1..]| && x in groups[1..][i] ==> x.instance == names[1..][i]
  {
    assert names == [names[0]] + names[1..];
    forall i, x | 0 <= i < |groups[1..]| && x in groups[1..][i] ensures x.instance == names[1..][i] {
      assert groups[1..][i] == groups[i + 1];
    }
  }

  /** `simulate` for one assignment: `cores as usize` draws for each
      instance the algorithm has runs on, every one a recorded run of that
      algorithm with that thread count, tagged with the seed. */
  lemma AssignmentSamplesFacts(df: seq<SimRow>, a: Algorithm, cores: real, seed: nat, pick: Picker, g: string)
    ensures var samples := AssignmentSamples(df, a, cores, seed, pick);
      && |samples| == |Instances(RunsOf(df, a))| * SampleCount(cores)
      && (forall s :: s in samples ==> s.row in df && s.row.algorithm == a.name && s.row.threads == a.threads && s.seed == seed)
      && |Filter(samples, (s: Sample) => s.row.instance == g)|
         == if g in Instances(RunsOf(df, a)) then SampleCount(cores) else 0
  {
    var rows := RunsOf(df, a);
    var groups := Groups(rows);
    DrawGroupsFacts(groups, SampleCount(cores), seed, pick);
    DrawGroupsPerInstance(groups, Instances(rows), SampleCount(cores), seed, pick, g);
  }

  /** Every sample of an assignment list belongs to one of its
      assignments, and carries the seed. */
  lemma {:induction false} AllSamplesFacts(df: seq<SimRow>, assignments: seq<(Algorithm, real)>, seed: nat, pick: Picker)
    ensures forall s :: s in AllSamples(df, assignments, seed, pick) ==>
      s.seed == seed && s.row in df && exists i :: 0 <= i < |assignments| && s.row.algorithm == assignments[i].0.name && s.row.threads == assignments[i].0.threads
  {
    if assignments != [] {
      AssignmentSamplesFacts(df, assignments[0].0, assignments[0].1, seed, pick, "");
      AllSamplesFacts(df, assignments[1..], seed, pick);
      forall s | s in AllSamples(df, assignments[1..], seed, pick)
        ensures exists i :: 0 <= i < |assignments| && s.row.algorithm == assignments[i].0.name && s.row.threads == assignments[i].0.threads
      {
        var i :| 0 <= i < |assignments[1..]| && s.row.algorithm == assignments[1..][i].0.name && s.row.threads == assignments[1..][i].0.threads;
        assert assignments[1..][i] == assignments[i + 1];
      }
    }
  }

  /** An assignment with no cores contributes no sample. */
  lemma ZeroCoresNoSamples(df: seq<SimRow>, a: Algorithm, cores: real, seed: nat, pick: Picker)
    requires cores < 1.0
    ensures AssignmentSamples(df, a, cores, seed, pick) == []
  {
    AssignmentSamplesFacts(df, a, cores, seed, pick, "");
  }

  /** The run table of the source's simulation test: algorithms algo1,
      algo2 and algo3, one thread each, on graph1 and graph2. */
  function ExampleTable(): seq<SimRow> {
    [SimRow("algo1", 1, "graph1", 1.0, 1.0, true), SimRow("algo1", 1, "graph2", 1.0, 1.0, true),
     SimRow("algo2", 1, "graph1", 1.0, 1.0, true), SimRow("algo2", 1, "graph2", 1.0, 1.0, true),
     SimRow("algo3", 1, "graph1", 1.0, 1.0, true), SimRow("algo3", 1, "graph2", 1.0, 1.0, true)]
  }

  /** algo2 runs on exactly two instances of the example table. */
  lemma ExampleInstances(df: seq<SimRow>)
    requires df == ExampleTable()
    ensures |Instances(RunsOf(df, Algorithm("algo2", 1)))| == 2
  {
    ExampleRuns(df);
    ExampleGraphsDiffer(df);
    PairInstances(df[2], df[3]);
  }

  /** algo2's rows of the example table: one on graph1, one on graph2. */
  lemma ExampleRuns(df: seq<SimRow>)
    requires df == ExampleTable()
    ensures RunsOf(df, Algorithm("algo2", 1)) == [df[2], df[3]]
  {
    var keep := RunBy(Algorithm("algo2", 1));
    assert df[0].algorithm[4] != '2' && df[1].algorithm[4] != '2';
    assert df[4].algorithm[4] != '2' && df[5].algorithm[4] != '2';
    var a, b, c := df[..2], df[2..4], df[4..];
    assert b == [df[2], df[3]];
    FilterMiddle(a, b, c, keep);
    assert df == a + b + c;
  }

  lemma ExampleGraphsDiffer(df: seq<SimRow>)
    requires df == ExampleTable()
    ensures df[2].instance != df[3].instance
  {
    assert df[2].instance[5] != df[3].instance[5];
  }

  /** Two rows on different instances form two groups. */
  lemma PairInstances(x: SimRow, y: SimRow)
    requires x.instance != y.instance
    ensures |Instances([x, y])| == 2
  {
    var gs := Instances([x, y]);
    assert forall g :: g in gs <==> g == x.instance || g == y.instance by {
      forall g ensures g in gs <==> g == x.instance || g == y.instance {
        if g == x.instance {
          assert [x, y][0].instance == g;
        }
        if g == y.instance {
          assert [x, y][1].instance == g;
        }
      }
    }
    TwoElements(gs, x.instance, y.instance);
  }

  lemma TwoElements<T>(s: seq<T>, a: T, b: T)
    requires a != b && NoDup(s)
    requires forall x :: x in s <==> x == a || x == b
    ensures |s| == 2
  {
    SameElementsSameLength(s, [a, b]);
  }

  /** The case the source's test checks: algo1 with no cores and algo2
      with two; whatever the sampler draws, four samples, none of algo1. */
  lemma SimulateExample(df: seq<SimRow>, pick: Picker, seed: nat)
    requires df == ExampleTable()
    ensures var p := Portfolio("final_portfolio_opt", [(Algorithm("algo1", 1), 0.0), (Algorithm("algo2", 1), 2.0)]);
      var r := Simulate(df, p, seed, pick);
      r.Ok? && |r.value| == 4 && forall s :: s in r.value ==> s.row.algorithm != "algo1"
  {
    ExampleInstances(df);
    SimulateTwoGroups(df, pick, seed);
  }

  /** The same portfolio on any table where algo2 has runs on two
      instances. */
  lemma SimulateTwoGroups(df: seq<SimRow>, pick: Picker, seed: nat)
    requires |Instances(RunsOf(df, Algorithm("algo2", 1)))| == 2
    ensures var p := Portfolio("final_portfolio_opt", [(Algorithm("algo1", 1), 0.0), (Algorithm("algo2", 1), 2.0)]);
      var r := Simulate(df, p, seed, pick);
      r.Ok? && |r.value| == 4 && forall s :: s in r.value ==> s.row.algorithm != "algo1"
  {
    var a1, a2 := Algorithm("algo1", 1), Algorithm("algo2", 1);
    SecondAssignmentOnly(df, a1, 0.0, a2, 2.0, seed, pick);
    AssignmentSamplesFacts(df, a2, 2.0, seed, pick, "");
    assert SampleCount(2.0) == 2;
    assert "algo2"[4] != "algo1"[4];
  }

  /** Of two assignments, the first with less than one core, only the
      second draws samples. */
  lemma SecondAssignmentOnly(df: seq<SimRow>, a1: Algorithm, c1: real, a2: Algorithm, c2: real, seed: nat, pick: Picker)
    requires c1 < 1.0
    ensures AllSamples(df, [(a1, c1), (a2, c2)], seed, pick) == AssignmentSamples(df, a2, c2, seed, pick)
  {
    var assignments := [(a1, c1), (a2, c2)];
    ZeroCoresNoSamples(df, a1, c1, seed, pick);
    assert assignments[1..][1..] == [];
    assert AllSamples(df, assignments[1..], seed, pick) == AssignmentSamples(df, a2, c2, seed, pick);
  }

  // ---------------------------------------------------------------------
  // portfolio_run_from_samples

  /** The instances of a sample table, in order of first appearance. */
  function SampleInstances(samples: seq<Sample>): (r: seq<string>)
    ensures NoDup(r) && forall g :: g in r <==> exists i :: 0 <= i < |samples| && samples[i].row.instance == g
  {
    var names := InstanceNames(samples);
    assert forall g :: g in names <==> exists i :: 0 <= i < |samples| && samples[i].row.instance == g;
    Distinct(names)
  }

  /** The instance column of a sample table. */
  function InstanceNames(samples: seq<Sample>): seq<string> {
    Map(samples, (s: Sample) => s.row.instance)
  }

  /** The samples of one instance, in table order. */
  function SampleGroup(samples: seq<Sample>, g: string): (r: seq<Sample>)
    ensures forall s :: s in r <==> s in samples && s.row.instance == g
    ensures g in SampleInstances(samples) ==> |r| > 0
  {
    var r := Filter(samples, (s: Sample) => s.row.instance == g);
    assert g in SampleInstances(samples) ==> |r| > 0 by {
      if g in SampleInstances(samples) {
        var i :| 0 <= i < |samples| && samples[i].row.instance == g;
        assert samples[i] in r;
      }
    }
    r
  }

  /** The sample `sort_by(quality).first()` picks: one of least quality,
      the first such in table order. */
  function BestSample(group: seq<Sample>): (b: Sample)
    requires |group| > 0
    ensures b in group && forall s :: s in group ==> b.row.quality <= s.row.quality
  {
    var qs := Map(group, (s: Sample) => s.row.quality);
    assert forall s :: s in group ==> exists i :: 0 <= i < |group| && group[i] == s && qs[i] == s.row.quality;
    group[ArgMinFirst(qs)]
  }

  /** The longest time of a non-empty group. */
  function MaxTime(group: seq<Sample>): (t: real)
    requires |group| > 0
    ensures (exists s :: s in group && s.row.time == t) && forall s :: s in group ==> s.row.time <= t
  {
    var ts := Map(group, (s: Sample) => s.row.time);
    var t := Max(ts);
    assert forall s :: s in group ==> s.row.time in ts by {
      forall s | s in group ensures s.row.time in ts {
        var i :| 0 <= i < |group| && group[i] == s;
        assert ts[i] == s.row.time;
      }
    }
    assert exists s :: s in group && s.row.time == t by {
      var i :| 0 <= i < |ts| && ts[i] == t;
      assert group[i] in group;
    }
    t
  }

  /** The portfolio run of one instance group. */
  function GroupRun(samples: seq<Sample>, g: string, numCores: nat, name: string): Run
    requires g in SampleInstances(samples)
  {
    var group := SampleGroup(samples, g);
    var b := BestSample(group);
    Run(g, name, numCores, b.row.valid, b.seed, b.row.quality, MaxTime(group))
  }

  /** `portfolio_run_from_samples`: one row per instance; its quality is
      the least and its time the greatest of the instance's samples, its
      algorithm is the portfolio's name and its thread count the number of
      cores; the other columns come from a least-quality sample. */
  function RunFromSamples(samples: seq<Sample>, numCores: nat, name: string): (r: seq<Run>)
    ensures |r| == |SampleInstances(samples)|
    ensures forall i :: 0 <= i < |r| ==>
      && r[i].instance == SampleInstances(samples)[i]
      && r[i].algorithm == name && r[i].threads == numCores
      && (forall s :: s in samples && s.row.instance == r[i].instance ==> r[i].quality <= s.row.quality && s.row.time <= r[i].time)
      && (exists s :: s in samples && s.row.instance == r[i].instance && s.row.quality == r[i].quality && s.seed == r[i].seed && s.row.valid == r[i].valid)
      && (exists s :: s in samples && s.row.instance == r[i].instance && s.row.time == r[i].time)
  {
    var gs := SampleInstances(samples);
    seq(|gs|, i requires 0 <= i < |gs| => GroupRun(samples, gs[i], numCores, name))
  }

  /** The samples of the source's test of `portfolio_run_from_samples`. */
  function ExampleSamples(): seq<Sample> {
    [Sample(SimRow("algo2", 1, "graph1", 1.0, 1.0, true), 0), Sample(SimRow("algo2", 1, "graph2", 2.0, 1.0, true), 0),
     Sample(SimRow("algo2", 1, "graph1", 3.0, 1.0, true), 0), Sample(SimRow("algo2", 1, "graph2", 4.0, 1.0, true), 0)]
  }

  /** The case the source's test checks: two instances with qualities
      {1, 3} and {2, 4} give portfolio qualities 1 and 2. */
  lemma RunFromSamplesExample(samples: seq<Sample>)
    requires samples == ExampleSamples()
    ensures var r := RunFromSamples(samples, 4, "portfolio");
      |r| == 2 && r[0].quality == 1.0 && r[1].quality == 2.0
  {
    assert samples[0].row.instance[5] != samples[1].row.instance[5];
    RunFromTwoGroups(samples, samples[0].row.instance, samples[1].row.instance);
  }

  /** Four samples alternating between two instances, with qualities 1, 2,
      3, 4: the runs of the two instances have qualities 1 and 2. */
  lemma RunFromTwoGroups(samples: seq<Sample>, g1: string, g2: string)
    requires g1 != g2 && |samples| == 4
    requires samples[0].row.instance == g1 && samples[2].row.instance == g1
    requires samples[1].row.instance == g2 && samples[3].row.instance == g2
    requires samples[0].row.quality == 1.0 && samples[1].row.quality == 2.0
    requires samples[2].row.quality == 3.0 && samples[3].row.quality == 4.0
    ensures var r := RunFromSamples(samples, 4, "portfolio");
      |r| == 2 && r[0].quality == 1.0 && r[1].quality == 2.0
  {
    TwoGroupsOrder(samples, g1, g2);
    var r := RunFromSamples(samples, 4, "portfolio");
    assert r[0] == GroupRun(samples, g1, 4, "portfolio") && r[1] == GroupRun(samples, g2, 4, "portfolio");
    AlternatingBounds(samples, g1, g2);
    GroupQuality(samples, g1, 1.0, 4, "portfolio");
    GroupQuality(samples, g2, 2.0, 4, "portfolio");
  }

  /** In the alternating samples, the first sample of each instance has
      its least quality. */
  lemma AlternatingBounds(samples: seq<Sample>, g1: string, g2: string)
    requires g1 != g2 && |samples| == 4
    requires samples[0].row.instance == g1 && samples[2].row.instance == g1
    requires samples[1].row.instance == g2 && samples[3].row.instance == g2
    requires samples[0].row.quality == 1.0 && samples[1].row.quality == 2.0
    requires samples[2].row.quality == 3.0 && samples[3].row.quality == 4.0
    ensures samples[0] in samples && samples[1] in samples
    ensures forall s :: s in samples && s.row.instance == g1 ==> 1.0 <= s.row.quality
    ensures forall s :: s in samples && s.row.instance == g2 ==> 2.0 <= s.row.quality
  {
    assert samples == [samples[0], samples[1], samples[2], samples[3]];
  }

  /** A group whose least quality is `q` runs with quality `q`. */
  lemma GroupQuality(samples: seq<Sample>, g: string, q: real, numCores: nat, name: string)
    requires g in SampleInstances(samples)
    requires exists s :: s in samples && s.row.instance == g && s.row.quality == q
    requires forall s :: s in samples && s.row.instance == g ==> q <= s.row.quality
    ensures GroupRun(samples, g, numCores, name).quality == q
  {
  }

  /** Four samples alternating between two instances group in that order. */
  lemma TwoGroupsOrder(samples: seq<Sample>, g1: string, g2: string)
    requires g1 != g2 && |samples| == 4
    requires samples[0].row.instance == g1 && samples[2].row.instance == g1
    requires samples[1].row.instance == g2 && samples[3].row.instance == g2
    ensures SampleInstances(samples) == [g1, g2]
  {
    var gs := SampleInstances(samples);
    var names := InstanceNames(samples);
    assert forall g :: g in gs <==> g == g1 || g == g2 by {
      forall g ensures g in gs <==> g == g1 || g == g2 {
        if g in gs {
          var i :| 0 <= i < |samples| && samples[i].row.instance == g;
        }
      }
    }
    TwoElements(gs, g1, g2);
    DistinctFirstOccurrenceOrder(names, 0, 1);
    assert names[0] == g1 && names[1] == g2;
    assert IndexOf(names, g1) == 0 && IndexOf(names, g2) == 1;
  }

  // ---------------------------------------------------------------------
  // simulate_portfolio_execution

  /** The simulated run of one seed, or the error of `simulate`. */
  function SeedRun(df: seq<SimRow>, p: Portfolio, seed: nat, numCores: nat, pick: Picker): Result<seq<Run>, string> {
    var samples :- Simulate(df, p, seed, pick);
    Ok(RunFromSamples(samples, numCores, p.name))
  }

  /** `simulate_portfolio_execution`: the runs of seeds `0..numSeeds`
      whose simulation succeeded, concatenated. */
  function PortfolioExecution(df: seq<SimRow>, p: Portfolio, numSeeds: nat, numCores: nat, pick: Picker): (r: Result<seq<Run>, string>) {
    Concat(OkValues(seq(numSeeds, s requires 0 <= s < numSeeds => SeedRun(df, p, s, numCores, pick))))
  }

  /** The run of one seed: the runs of the seed's samples, every row named
      after the portfolio, with `numCores` threads and that seed. */
  lemma SeedRunFacts(df: seq<SimRow>, p: Portfolio, seed: nat, numCores: nat, pick: Picker)
    requires p.assignments != []
    ensures SeedRun(df, p, seed, numCores, pick) == Ok(RunFromSamples(AllSamples(df, p.assignments, seed, pick), numCores, p.name))
    ensures forall x :: x in SeedRun(df, p, seed, numCores, pick).value ==> x.algorithm == p.name && x.threads == numCores && x.seed == seed
  {
    var samples := AllSamples(df, p.assignments, seed, pick);
    var r := RunFromSamples(samples, numCores, p.name);
    AllSamplesFacts(df, p.assignments, seed, pick);
    forall x | x in r ensures x.algorithm == p.name && x.threads == numCores && x.seed == seed {
      var i :| 0 <= i < |r| && r[i] == x;
      var w :| w in samples && w.row.instance == x.instance && w.row.quality == x.quality && w.seed == x.seed;
    }
  }

  /** The runs of seeds `0..numSeeds`, one block per seed. */
  function SeedBlocks(df: seq<SimRow>, p: Portfolio, numSeeds: nat, numCores: nat, pick: Picker): seq<seq<Run>> {
    seq(numSeeds, s requires 0 <= s < numSeeds => RunFromSamples(AllSamples(df, p.assignments, s, pick), numCores, p.name))
  }

  /** A portfolio executes iff it has an assignment and there is a seed;
      then it yields the runs of seeds `0..numSeeds`, in seed order. */
  lemma PortfolioExecutionFacts(df: seq<SimRow>, p: Portfolio, numSeeds: nat, numCores: nat, pick: Picker)
    ensures var r := PortfolioExecution(df, p, numSeeds, numCores, pick);
      && (r.Ok? <==> numSeeds > 0 && p.assignments != [])
      && (r.Ok? ==> r.value == Flatten(SeedBlocks(df, p, numSeeds, numCores, pick)))
  {
    var seeds := seq(numSeeds, s requires 0 <= s < numSeeds => SeedRun(df, p, s, numCores, pick));
    if p.assignments == [] {
      OkValuesNoneOk(seeds);
    } else {
      forall s | 0 <= s < numSeeds ensures seeds[s] == Ok(SeedBlocks(df, p, numSeeds, numCores, pick)[s]) {
        SeedRunFacts(df, p, s, numCores, pick);
      }
      OkValuesAllOk(seeds);
      assert OkValues(seeds) == SeedBlocks(df, p, numSeeds, numCores, pick);
    }
  }

  /** Every executed row is named after the portfolio, has `numCores`
      threads and a seed in `0..numSeeds`. */
  lemma PortfolioExecutionRows(df: seq<SimRow>, p: Portfolio, numSeeds: nat, numCores: nat, pick: Picker)
    requires PortfolioExecution(df, p, numSeeds, numCores, pick).Ok?
    ensures forall x :: x in PortfolioExecution(df, p, numSeeds, numCores, pick).value ==>
      x.algorithm == p.name && x.threads == numCores && x.seed < numSeeds
  {
    PortfolioExecutionFacts(df, p, numSeeds, numCores, pick);
    var blocks := SeedBlocks(df, p, numSeeds, numCores, pick);
    forall x: Run | x in Flatten(blocks) ensures x.algorithm == p.name && x.threads == numCores && x.seed < numSeeds {
      FlattenMember(blocks, x);
      var s :| 0 <= s < |blocks| && x in blocks[s];
      SeedRunFacts(df, p, s, numCores, pick);
    }
  }

  // ---------------------------------------------------------------------
  // simulate_algorithms_as_portfolio

  /** `num_samples`: `numCores / threads`, rounded down when the coin
      (`random::<f64>()`, in `[0, 1)`) is at least its fractional part and
      up otherwise. The result is a whole number within one of the
      quotient: below it only when the coin is at least the fractional
      part, above it only otherwise, and exact when `threads` divides
      `numCores` and the coin is in `[0, 1)`. */
  function NumSamples(numCores: nat, threads: nat, coin: real): (r: real)
    requires threads > 0
    ensures var q := numCores as real / threads as real;
      && r.Floor as real == r && q - 1.0 < r < q + 1.0
      && (r < q ==> coin >= q - q.Floor as real)
      && (r > q ==> coin < q - q.Floor as real)
      && (q.Floor as real == q && coin >= 0.0 ==> r == q)
  {
    var q := numCores as real / threads as real;
    var fl := q.Floor as real;
    if coin >= q - fl then fl else -((-q).Floor) as real
  }

  /** The single-algorithm portfolios: one per algorithm whose thread count
      fits the cores, in order, named by `Display` and given
      `NumSamples` cores; `coin(i)` is the draw for the `i`-th of them. */
  function AlgorithmPortfolios(algorithms: seq<Algorithm>, numCores: nat, coin: nat -> real): (ps: seq<Portfolio>)
    requires forall a :: a in algorithms ==> a.threads > 0
    ensures |ps| == |Filter(algorithms, (a: Algorithm) => a.threads <= numCores)|
  {
    var fits := Filter(algorithms, (a: Algorithm) => a.threads <= numCores);
    seq(|fits|, i requires 0 <= i < |fits| =>
      Portfolio(Display(fits[i]), [(fits[i], NumSamples(numCores, fits[i].threads, coin(i)))]))
  }

  /** Every single-algorithm portfolio stands for an algorithm with at most
      `numCores` threads, has exactly that algorithm and is named after
      it; every such algorithm has one. */
  lemma AlgorithmPortfoliosFacts(algorithms: seq<Algorithm>, numCores: nat, coin: nat -> real)
    requires forall a :: a in algorithms ==> a.threads > 0
    ensures var ps := AlgorithmPortfolios(algorithms, numCores, coin);
      && (forall p :: p in ps ==> exists a :: a in algorithms && a.threads <= numCores && p.name == Display(a) && |p.assignments| == 1 && p.assignments[0].0 == a)
      && (forall a :: a in algorithms && a.threads <= numCores ==> exists p :: p in ps && p.name == Display(a))
  {
    var ps := AlgorithmPortfolios(algorithms, numCores, coin);
    var fits := Filter(algorithms, (a: Algorithm) => a.threads <= numCores);
    forall p | p in ps
      ensures exists a :: a in algorithms && a.threads <= numCores && p.name == Display(a) && |p.assignments| == 1 && p.assignments[0].0 == a
    {
      var i :| 0 <= i < |ps| && ps[i] == p;
      assert fits[i] in fits;
    }
    forall a | a in algorithms && a.threads <= numCores ensures exists p :: p in ps && p.name == Display(a) {
      assert a in fits;
      var i :| 0 <= i < |fits| && fits[i] == a;
      assert ps[i] in ps;
    }
  }

  /** The execution of each portfolio of a list, in order. */
  function Executions(df: seq<SimRow>, ps: seq<Portfolio>, numSeeds: nat, numCores: nat, pick: Picker): (r: seq<Result<seq<Run>, string>>)
    ensures |r| == |ps|
  {
    seq(|ps|, i requires 0 <= i < |ps| => PortfolioExecution(df, ps[i], numSeeds, numCores, pick))
  }

  /** Portfolios with assignments all execute when there is a seed, and
      none does otherwise. */
  lemma ExecutionsOk(df: seq<SimRow>, ps: seq<Portfolio>, numSeeds: nat, numCores: nat, pick: Picker)
    requires forall p :: p in ps ==> p.assignments != []
    ensures |OkValues(Executions(df, ps, numSeeds, numCores, pick))| == if numSeeds > 0 then |ps| else 0
  {
    var execs := Executions(df, ps, numSeeds, numCores, pick);
    forall i | 0 <= i < |ps| ensures execs[i].Ok? <==> numSeeds > 0 {
      assert ps[i] in ps;
      PortfolioExecutionFacts(df, ps[i], numSeeds, numCores, pick);
    }
    if numSeeds > 0 {
      OkValuesAllOk(execs);
    } else {
      OkValuesNoneOk(execs);
    }
  }

  /** `simulate_algorithms_as_portfolio`: every single-algorithm portfolio
      executed; `concat` fails when none produced runs. */
  function AlgorithmsAsPortfolio(df: seq<SimRow>, algorithms: seq<Algorithm>, numSeeds: nat, numCores: nat, pick: Picker, coin: nat -> real): Result<seq<Run>, string>
    requires forall a :: a in algorithms ==> a.threads > 0
  {
    var ps := AlgorithmPortfolios(algorithms, numCores, coin);
    Concat(OkValues(Executions(df, ps, numSeeds, numCores, pick)))
  }

  /** The single-algorithm runs exist iff there is a seed and some
      algorithm fits the cores. */
  lemma AlgorithmsAsPortfolioOk(df: seq<SimRow>, algorithms: seq<Algorithm>, numSeeds: nat, numCores: nat, pick: Picker, coin: nat -> real)
    requires forall a :: a in algorithms ==> a.threads > 0
    ensures AlgorithmsAsPortfolio(df, algorithms, numSeeds, numCores, pick, coin).Ok?
      <==> numSeeds > 0 && exists a :: a in algorithms && a.threads <= numCores
  {
    var ps := AlgorithmPortfolios(algorithms, numCores, coin);
    var fits := Filter(algorithms, (a: Algorithm) => a.threads <= numCores);
    assert forall p :: p in ps ==> p.assignments != [];
    ExecutionsOk(df, ps, numSeeds, numCores, pick);
    assert fits != [] <==> exists a :: a in algorithms && a.threads <= numCores by {
      if fits != [] {
        assert fits[0] in fits;
      }
    }
  }

  // ---------------------------------------------------------------------
  // simulation_df

  predicate HasAssignments(p: Portfolio) {
    p.assignments != []
  }

  /** The runs of the given portfolios that have assignments. */
  function PortfolioRuns(df: seq<SimRow>, portfolios: seq<Portfolio>, numSeeds: nat, numCores: nat, pick: Picker): seq<seq<Run>> {
    var used := Filter(portfolios, HasAssignments);
    OkValues(Executions(df, used, numSeeds, numCores, pick))
  }

  /** `simulation_df`: the runs of every portfolio with assignments,
      followed by the runs of every algorithm as its own portfolio; fails
      with the latter. */
  function SimulationDf(df: seq<SimRow>, algorithms: seq<Algorithm>, portfolios: seq<Portfolio>, numSeeds: nat, numCores: nat, pick: Picker, coin: nat -> real): (r: Result<seq<Run>, string>)
    requires forall a :: a in algorithms ==> a.threads > 0
  {
    var runs := PortfolioRuns(df, portfolios, numSeeds, numCores, pick);
    var single :- AlgorithmsAsPortfolio(df, algorithms, numSeeds, numCores, pick, coin);
    Ok(Flatten(runs + [single]))
  }

  /** The simulation succeeds iff there is a seed and some algorithm fits
      the cores. */
  lemma SimulationDfOk(df: seq<SimRow>, algorithms: seq<Algorithm>, portfolios: seq<Portfolio>, numSeeds: nat, numCores: nat, pick: Picker, coin: nat -> real)
    requires forall a :: a in algorithms ==> a.threads > 0
    ensures SimulationDf(df, algorithms, portfolios, numSeeds, numCores, pick, coin).Ok?
      <==> numSeeds > 0 && exists a :: a in algorithms && a.threads <= numCores
  {
    AlgorithmsAsPortfolioOk(df, algorithms, numSeeds, numCores, pick, coin);
  }

  /** A portfolio without assignments contributes nothing: the simulation
      is the same with it removed. */
  lemma EmptyPortfolioSkipped(df: seq<SimRow>, algorithms: seq<Algorithm>, ps1: seq<Portfolio>, name: string, ps2: seq<Portfolio>,
                              numSeeds: nat, numCores: nat, pick: Picker, coin: nat -> real)
    requires forall a :: a in algorithms ==> a.threads > 0
    ensures SimulationDf(df, algorithms, ps1 + [Portfolio(name, [])] + ps2, numSeeds, numCores, pick, coin)
         == SimulationDf(df, algorithms, ps1 + ps2, numSeeds, numCores, pick, coin)
  {
    FilterDrop(ps1, Portfolio(name, []), ps2, HasAssignments);
  }
}
