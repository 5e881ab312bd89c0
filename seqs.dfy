/** Relational building blocks over sequences of records: the handful of
    dataframe operations the pipeline uses (stable unique, filter, min/max
    aggregation, concatenation, sort), each defined once and reused. */
module Seqs {

  /** No element occurs twice. */
  predicate NoDup<T(==)>(s: seq<T>) {
    forall i, j :: 0 <= i < j < |s| ==> s[i] != s[j]
  }

  /** Position of the first occurrence of `x` in `s`. */
  function IndexOf<T(==)>(s: seq<T>, x: T): (i: nat)
    requires x in s
    ensures i < |s| && s[i] == x
    ensures forall j :: 0 <= j < i ==> s[j] != x
  {
    if s[0] == x then 0 else 1 + IndexOf(s[1..], x)
  }

  /** The distinct elements of `s`, each at its first occurrence
      (`unique_stable` with `UniqueKeepStrategy::First`, and the key order
      of `groupby_stable`). */
  function Distinct<T(==,!new)>(s: seq<T>): (r: seq<T>)
    ensures NoDup(r)
    ensures forall x :: x in r <==> x in s
    ensures |r| <= |s|
  {
    if s == [] then []
    else
      var p := s[..|s| - 1];
      var x := s[|s| - 1];
      assert s == p + [x];
      var d := Distinct(p);
      if x in d then d else d + [x]
  }

  lemma {:induction false} IndexOfExtend<T>(p: seq<T>, x: T, y: T)
    requires y in p
    ensures IndexOf(p + [x], y) == IndexOf(p, y)
  {
    if p[0] != y {
      assert (p + [x])[1..] == p[1..] + [x];
      IndexOfExtend(p[1..], x, y);
    }
  }

  /** `Distinct` keeps first-occurrence order. */
  lemma {:induction false} DistinctFirstOccurrenceOrder<T(!new)>(s: seq<T>, i: nat, j: nat)
    requires i < j < |Distinct(s)|
    ensures IndexOf(s, Distinct(s)[i]) < IndexOf(s, Distinct(s)[j])
  {
    var p := s[..|s| - 1];
    var x := s[|s| - 1];
    assert s == p + [x];
    var d := Distinct(p);
    var r := Distinct(s);
    assert r[i] in p by {
      if x in d { assert r == d; } else { assert r == d + [x]; assert r[i] == d[i]; }
    }
    IndexOfExtend(p, x, r[i]);
    if x in d {
      assert r == d;
      IndexOfExtend(p, x, r[j]);
      DistinctFirstOccurrenceOrder(p, i, j);
    } else {
      assert r == d + [x];
      if j < |d| {
        IndexOfExtend(p, x, r[j]);
        DistinctFirstOccurrenceOrder(p, i, j);
      } else {
        assert r[j] == x && x !in p;
        assert forall k :: 0 <= k < |p| ==> s[k] == p[k];
        assert IndexOf(s, x) == |s| - 1;
      }
    }
  }

  /** A duplicate-free sequence is its own `Distinct`. */
  lemma {:induction false} DistinctOfNoDup<T(!new)>(s: seq<T>)
    requires NoDup(s)
    ensures Distinct(s) == s
  {
    if s != [] {
      var p := s[..|s| - 1];
      assert s == p + [s[|s| - 1]];
      DistinctOfNoDup(p);
    }
  }

  /** Applies `f` to every element (a column projection or a row map). */
  function Map<T, U>(s: seq<T>, f: T -> U): (r: seq<U>)
    ensures |r| == |s| && forall i :: 0 <= i < |s| ==> r[i] == f(s[i])
  {
    seq(|s|, i requires 0 <= i < |s| => f(s[i]))
  }

  lemma MapAppend<T, U>(a: seq<T>, b: seq<T>, f: T -> U)
    ensures Map(a + b, f) == Map(a, f) + Map(b, f)
  {
  }

  /** A duplicate-free sequence holds each element at most once. */
  lemma {:induction false} NoDupCount<T>(s: seq<T>, x: T)
    requires NoDup(s)
    ensures multiset(s)[x] <= 1
  {
    if s != [] {
      var p := s[..|s| - 1];
      assert s == p + [s[|s| - 1]];
      NoDupCount(p, x);
      if x == s[|s| - 1] {
        assert x !in p;
      }
    }
  }

  /** Two equal elements at distinct positions count twice. */
  lemma CountTwice<T>(s: seq<T>, i: nat, j: nat)
    requires i < j < |s| && s[i] == s[j]
    ensures multiset(s)[s[i]] >= 2
  {
    assert s == s[..j] + [s[j]] + s[j + 1..];
    assert s[i] in s[..j];
  }

  /** A permutation of a duplicate-free sequence is duplicate-free. */
  lemma NoDupPermutation<T>(a: seq<T>, b: seq<T>)
    requires NoDup(a) && multiset(a) == multiset(b)
    ensures NoDup(b)
  {
    forall i, j | 0 <= i < j < |b| ensures b[i] != b[j] {
      if b[i] == b[j] {
        CountTwice(b, i, j);
        NoDupCount(a, b[i]);
      }
    }
  }

  /** A duplicate-free sequence has as many elements as its element set. */
  lemma {:induction false} NoDupCardinality<T>(s: seq<T>)
    requires NoDup(s)
    ensures |set x | x in s| == |s|
  {
    if s != [] {
      var p := s[..|s| - 1];
      var x := s[|s| - 1];
      assert s == p + [x];
      NoDupCardinality(p);
      assert (set y | y in s) == (set y | y in p) + {x};
      assert x !in (set y | y in p);
    }
  }

  /** Keeps the elements satisfying `keep`, in order. */
  function Filter<T(!new)>(s: seq<T>, keep: T -> bool): (r: seq<T>)
    ensures |r| <= |s|
    ensures forall x :: x in r <==> x in s && keep(x)
  {
    if s == [] then []
    else
      assert s == [s[0]] + s[1..];
      (if keep(s[0]) then [s[0]] else []) + Filter(s[1..], keep)
  }

  /** Filtering takes each element at most as often as it occurs. */
  lemma {:induction false} FilterMultiset<T(!new)>(s: seq<T>, keep: T -> bool)
    ensures multiset(Filter(s, keep)) <= multiset(s)
  {
    if s != [] {
      FilterMultiset(s[1..], keep);
      assert s == [s[0]] + s[1..];
    }
  }

  lemma FilterSnoc<T(!new)>(s: seq<T>, x: T, keep: T -> bool)
    ensures Filter(s + [x], keep) == Filter(s, keep) + (if keep(x) then [x] else [])
  {
    FilterAppend(s, [x], keep);
    assert [x][1..] == [];
  }

  lemma {:induction false} FilterAppend<T(!new)>(a: seq<T>, b: seq<T>, keep: T -> bool)
    ensures Filter(a + b, keep) == Filter(a, keep) + Filter(b, keep)
  {
    if a == [] {
      assert a + b == b;
    } else {
      assert (a + b)[0] == a[0];
      assert (a + b)[1..] == a[1..] + b;
      FilterAppend(a[1..], b, keep);
    }
  }

  /** Filtering with a predicate that holds everywhere changes nothing. */
  lemma {:induction false} FilterAll<T(!new)>(s: seq<T>, keep: T -> bool)
    requires forall i :: 0 <= i < |s| ==> keep(s[i])
    ensures Filter(s, keep) == s
  {
    if s != [] {
      FilterAll(s[1..], keep);
    }
  }

  /** Filtering with a predicate that holds nowhere leaves nothing. */
  lemma {:induction false} FilterNone<T(!new)>(s: seq<T>, keep: T -> bool)
    requires forall i :: 0 <= i < |s| ==> !keep(s[i])
    ensures Filter(s, keep) == []
  {
    if s != [] {
      assert forall i :: 0 <= i < |s[1..]| ==> s[1..][i] == s[i + 1];
      FilterNone(s[1..], keep);
    }
  }

  /** A filter that rejects a prefix and a suffix and keeps the middle. */
  lemma FilterMiddle<T(!new)>(a: seq<T>, b: seq<T>, c: seq<T>, keep: T -> bool)
    requires forall i :: 0 <= i < |a| ==> !keep(a[i])
    requires forall i :: 0 <= i < |b| ==> keep(b[i])
    requires forall i :: 0 <= i < |c| ==> !keep(c[i])
    ensures Filter(a + b + c, keep) == b
  {
    FilterAppend(a + b, c, keep);
    FilterAppend(a, b, keep);
    FilterNone(a, keep);
    FilterAll(b, keep);
    FilterNone(c, keep);
  }

  /** Filtering out an element that is not kept anyway changes nothing. */
  lemma FilterDrop<T(!new)>(a: seq<T>, x: T, b: seq<T>, keep: T -> bool)
    requires !keep(x)
    ensures Filter(a + [x] + b, keep) == Filter(a + b, keep)
  {
    FilterAppend(a + [x], b, keep);
    FilterAppend(a, [x], keep);
    FilterAppend(a, b, keep);
    assert Filter([x], keep) == [];
  }

  /** The next prefix is the current one and one more element. */
  lemma PrefixSnoc<T>(s: seq<T>, i: nat)
    requires i < |s|
    ensures s[..i + 1] == s[..i] + [s[i]]
  {
  }

  /** Exchanging two positions keeps the elements. */
  lemma SwapPermutes<T>(s: seq<T>, i: nat, j: nat)
    requires i < |s| && j < |s|
    ensures multiset(s[i := s[j]][j := s[i]]) == multiset(s)
  {
  }

  /** Filtering out exactly the second entry of a list. */
  lemma FilterSecond<T(!new)>(k: seq<T>, rest: seq<T>, keep: T -> bool)
    requires |k| >= 2 && |rest| >= 1 && k[0] == rest[0] && k[2..] == rest[1..]
    requires !keep(k[1]) && forall i :: 0 <= i < |rest| ==> keep(rest[i])
    ensures Filter(k, keep) == rest
  {
    assert Filter(k[2..], keep) == k[2..] by {
      FilterAll(rest[1..], keep);
    }
    assert k[1..][1..] == k[2..];
    assert Filter(k[1..], keep) == k[2..];
    assert Filter(k, keep) == [k[0]] + k[2..];
    assert rest == [rest[0]] + rest[1..];
  }

  /** Splitting by a predicate and its negation accounts for every element. */
  lemma {:induction false} FilterSplit<T(!new)>(s: seq<T>, keep: T -> bool)
    ensures |Filter(s, keep)| + |Filter(s, x => !keep(x))| == |s|
  {
    if s != [] {
      FilterSplit(s[1..], keep);
    }
  }

  /** Filtering keeps duplicate-freedom. */
  lemma {:induction false} FilterNoDup<T(!new)>(s: seq<T>, keep: T -> bool)
    requires NoDup(s)
    ensures NoDup(Filter(s, keep))
  {
    if s != [] {
      FilterNoDup(s[1..], keep);
      assert s[0] !in s[1..];
    }
  }

  /** Concatenation of a list of frames (polars `concat` once it succeeds). */
  function Flatten<T>(ss: seq<seq<T>>): seq<T> {
    if ss == [] then [] else ss[0] + Flatten(ss[1..])
  }

  lemma {:induction false} FlattenAppend<T>(a: seq<seq<T>>, b: seq<seq<T>>)
    ensures Flatten(a + b) == Flatten(a) + Flatten(b)
  {
    if a == [] {
      assert a + b == b;
    } else {
      assert (a + b)[0] == a[0];
      assert (a + b)[1..] == a[1..] + b;
      FlattenAppend(a[1..], b);
    }
  }

  lemma {:induction false} FlattenMember<T>(ss: seq<seq<T>>, x: T)
    ensures x in Flatten(ss) <==> exists i :: 0 <= i < |ss| && x in ss[i]
  {
    if ss != [] {
      FlattenMember(ss[1..], x);
      if x in Flatten(ss[1..]) {
        var i :| 0 <= i < |ss[1..]| && x in ss[1..][i];
        assert x in ss[i + 1];
      }
      if exists i :: 0 <= i < |ss| && x in ss[i] {
        var i :| 0 <= i < |ss| && x in ss[i];
        if i > 0 { assert x in ss[1..][i - 1]; }
      }
    }
  }

  lemma {:induction false} FlattenMultiset<T>(ss: seq<seq<T>>, x: T)
    requires forall i :: 0 <= i < |ss| ==> x !in ss[i]
    ensures x !in Flatten(ss)
  {
    FlattenMember(ss, x);
  }

  /** Concatenating `|ss|` rows of width `w` gives `|ss| * w` cells. */
  lemma {:induction false} FlattenRectangularLength<T>(ss: seq<seq<T>>, w: nat)
    requires forall i :: 0 <= i < |ss| ==> |ss[i]| == w
    ensures |Flatten(ss)| == |ss| * w
  {
    if ss != [] {
      FlattenRectangularLength(ss[1..], w);
      assert |ss| * w == w + (|ss| - 1) * w;
    }
  }

  /** Cell `i * w + j` of the concatenation is `ss[i][j]` (row-major order). */
  lemma {:induction false} FlattenRectangularAt<T>(ss: seq<seq<T>>, w: nat, i: nat, j: nat)
    requires forall k :: 0 <= k < |ss| ==> |ss[k]| == w
    requires i < |ss| && j < w
    ensures i * w + j < |Flatten(ss)| && Flatten(ss)[i * w + j] == ss[i][j]
  {
    FlattenRectangularLength(ss, w);
    if i > 0 {
      FlattenRectangularAt(ss[1..], w, i - 1, j);
      assert i * w + j == w + ((i - 1) * w + j);
    }
  }

  /** Cuts `xs` into `count` consecutive pieces of width `w`. */
  function Chunks<T>(xs: seq<T>, w: nat, count: nat): (cs: seq<seq<T>>)
    requires |xs| == count * w
    ensures |cs| == count && forall i :: 0 <= i < count ==> |cs[i]| == w
    decreases count
  {
    if count == 0 then []
    else
      assert count * w == w + (count - 1) * w;
      [xs[..w]] + Chunks(xs[w..], w, count - 1)
  }

  /** Joining the pieces gives back the sequence. */
  lemma {:induction false} FlattenChunks<T>(xs: seq<T>, w: nat, count: nat)
    requires |xs| == count * w
    ensures Flatten(Chunks(xs, w, count)) == xs
    decreases count
  {
    if count > 0 {
      assert count * w == w + (count - 1) * w;
      var cs := Chunks(xs, w, count);
      assert cs[1..] == Chunks(xs[w..], w, count - 1);
      FlattenChunks(xs[w..], w, count - 1);
      assert xs == xs[..w] + xs[w..];
    }
  }

  /** Cutting the concatenation of rows of width `w` gives back the rows. */
  lemma {:induction false} ChunksFlatten<T>(ss: seq<seq<T>>, w: nat)
    requires forall i :: 0 <= i < |ss| ==> |ss[i]| == w
    ensures |Flatten(ss)| == |ss| * w && Chunks(Flatten(ss), w, |ss|) == ss
  {
    FlattenRectangularLength(ss, w);
    if ss != [] {
      var f := Flatten(ss);
      assert f == ss[0] + Flatten(ss[1..]);
      assert f[..w] == ss[0];
      assert f[w..] == Flatten(ss[1..]);
      ChunksFlatten(ss[1..], w);
      assert ss == [ss[0]] + ss[1..];
    }
  }

  /** Two duplicate-free sequences with the same elements have the same
      length. */
  lemma SameElementsSameLength<T>(a: seq<T>, b: seq<T>)
    requires NoDup(a) && NoDup(b)
    requires forall x :: x in a <==> x in b
    ensures |a| == |b|
  {
    NoDupCardinality(a);
    NoDupCardinality(b);
    assert (set x | x in a) == (set x | x in b);
  }

  /** Joining two duplicate-free sequences with no common element gives a
      duplicate-free sequence. */
  lemma NoDupAppend<T>(a: seq<T>, b: seq<T>)
    requires NoDup(a) && NoDup(b)
    requires forall x :: x in a ==> x !in b
    ensures NoDup(a + b)
  {
    forall i, j | 0 <= i < j < |a + b| ensures (a + b)[i] != (a + b)[j] {
      if i < |a| && j >= |a| {
        assert (a + b)[i] in a && (a + b)[j] == b[j - |a|];
      }
    }
  }

  /** Concatenating duplicate-free blocks that share no element gives a
      duplicate-free sequence. */
  lemma {:induction false} FlattenNoDup<T>(ss: seq<seq<T>>)
    requires forall i :: 0 <= i < |ss| ==> NoDup(ss[i])
    requires forall i, j, x :: 0 <= i < j < |ss| && x in ss[i] ==> x !in ss[j]
    ensures NoDup(Flatten(ss))
  {
    if ss != [] {
      FlattenNoDup(ss[1..]);
      assert forall i :: 0 <= i < |ss[1..]| ==> ss[1..][i] == ss[i + 1];
      forall x | x in ss[0] ensures x !in Flatten(ss[1..]) {
        FlattenMember(ss[1..], x);
      }
      NoDupAppend(ss[0], Flatten(ss[1..]));
    }
  }

  /** Projecting a concatenation projects each block. */
  lemma {:induction false} MapFlatten<T, U>(ss: seq<seq<T>>, f: T -> U)
    ensures Map(Flatten(ss), f) == Flatten(seq(|ss|, i requires 0 <= i < |ss| => Map(ss[i], f)))
  {
    var ms := seq(|ss|, i requires 0 <= i < |ss| => Map(ss[i], f));
    if ss != [] {
      MapFlatten(ss[1..], f);
      MapAppend(ss[0], Flatten(ss[1..]), f);
      assert ms[1..] == seq(|ss[1..]|, i requires 0 <= i < |ss[1..]| => Map(ss[1..][i], f));
    }
  }

  /** Filters by predicates that agree on the elements are equal. */
  lemma {:induction false} FilterCongruent<T(!new)>(s: seq<T>, p: T -> bool, q: T -> bool)
    requires forall i :: 0 <= i < |s| ==> p(s[i]) == q(s[i])
    ensures Filter(s, p) == Filter(s, q)
  {
    if s != [] {
      FilterCongruent(s[1..], p, q);
    }
  }

  /** A permutation keeps a key projection duplicate-free. */
  lemma MapNoDupPermutation<T, U>(a: seq<T>, b: seq<T>, f: T -> U)
    requires multiset(a) == multiset(b) && NoDup(Map(a, f))
    ensures NoDup(Map(b, f))
  {
    assert NoDup(a) by {
      forall i, j | 0 <= i < j < |a| ensures a[i] != a[j] {
        assert Map(a, f)[i] != Map(a, f)[j];
      }
    }
    NoDupPermutation(a, b);
    forall i, j | 0 <= i < j < |b| ensures f(b[i]) != f(b[j]) {
      assert b[i] in multiset(a) && b[j] in multiset(a);
      var p :| 0 <= p < |a| && a[p] == b[i];
      var q :| 0 <= q < |a| && a[q] == b[j];
      assert p != q;
      if p < q { assert Map(a, f)[p] != Map(a, f)[q]; }
      else { assert Map(a, f)[q] != Map(a, f)[p]; }
    }
  }

  lemma MapMember<T, U>(s: seq<T>, f: T -> U, x: T)
    requires x in s
    ensures f(x) in Map(s, f)
  {
    var i :| 0 <= i < |s| && s[i] == x;
    assert Map(s, f)[i] == f(x);
  }

  /** Every element of a mapped sequence is the image of an element. */
  lemma MapPreimage<T, U>(s: seq<T>, f: T -> U, y: U)
    requires y in Map(s, f)
    ensures exists x :: x in s && y == f(x)
  {
    var i :| 0 <= i < |s| && Map(s, f)[i] == y;
    assert s[i] in s;
  }

  /** Reordering does not change which images occur. */
  lemma MapPermutationMember<T, U>(a: seq<T>, b: seq<T>, f: T -> U, y: U)
    requires multiset(a) == multiset(b)
    ensures y in Map(a, f) ==> y in Map(b, f)
  {
    if y in Map(a, f) {
      var i :| 0 <= i < |a| && Map(a, f)[i] == y;
      assert a[i] in multiset(b);
      var j :| 0 <= j < |b| && b[j] == a[i];
      assert Map(b, f)[j] == y;
    }
  }

  /** Removing the elements of a duplicate-free subset from a
      duplicate-free sequence removes exactly as many elements as the
      subset has. */
  lemma FilterSubsetCount<T(!new)>(s: seq<T>, sub: seq<T>)
    requires NoDup(s) && NoDup(sub)
    requires forall x :: x in sub ==> x in s
    ensures |Filter(s, x => x !in sub)| + |sub| == |s|
  {
    var kept := Filter(s, x => x in sub);
    FilterSplit(s, x => x in sub);
    FilterCongruent(s, x => !((y: T) => y in sub)(x), x => x !in sub);
    FilterNoDup(s, x => x in sub);
    assert (set x | x in kept) == (set x | x in sub);
    NoDupCardinality(kept);
    NoDupCardinality(sub);
  }

  /** Mapping a duplicate-free sequence through a function injective on
      its elements keeps it duplicate-free. */
  lemma MapInjectiveNoDup<T, U>(s: seq<T>, f: T -> U)
    requires NoDup(s)
    requires forall x, y :: x in s && y in s && f(x) == f(y) ==> x == y
    ensures NoDup(Map(s, f))
  {
  }

  /** The number of occurrences of each of `d`'s elements in `w`. */
  function CountsOf<T(==)>(d: seq<T>, w: seq<T>): (r: seq<int>)
    ensures |r| == |d| && forall i :: 0 <= i < |d| ==> r[i] == multiset(w)[d[i]]
  {
    if d == [] then [] else CountsOf(d[..|d| - 1], w) + [multiset(w)[d[|d| - 1]]]
  }

  lemma {:induction false} CountsOfSnoc<T>(d: seq<T>, w: seq<T>, y: T)
    requires NoDup(d)
    ensures SumInt(CountsOf(d, w + [y])) == SumInt(CountsOf(d, w)) + (if y in d then 1 else 0)
  {
    if d != [] {
      var p := d[..|d| - 1];
      var x := d[|d| - 1];
      assert d == p + [x];
      CountsOfSnoc(p, w, y);
      assert multiset(w + [y])[x] == multiset(w)[x] + (if x == y then 1 else 0);
    }
  }

  /** Counting every element of a list over a duplicate-free list holding
      all of them accounts for the whole list. */
  lemma {:induction false} CountsOfSum<T>(d: seq<T>, w: seq<T>)
    requires NoDup(d) && forall x :: x in w ==> x in d
    ensures SumInt(CountsOf(d, w)) == |w|
  {
    if w == [] {
      CountsOfZero(d);
    } else {
      var p := w[..|w| - 1];
      assert w == p + [w[|w| - 1]];
      CountsOfSum(d, p);
      CountsOfSnoc(d, p, w[|w| - 1]);
    }
  }

  /** When position `i` of `w` holds `a` exactly when `keys[i]` is kept,
      `a` occurs in `w` as often as `keys` has kept elements. */
  lemma {:induction false} CountMatches<T(!new), U>(keys: seq<T>, w: seq<U>, keep: T -> bool, a: U)
    requires |w| == |keys|
    requires forall i :: 0 <= i < |keys| ==> keep(keys[i]) == (w[i] == a)
    ensures multiset(w)[a] == |Filter(keys, keep)|
  {
    if keys != [] {
      assert w == [w[0]] + w[1..];
      CountMatches(keys[1..], w[1..], keep, a);
    }
  }

  lemma {:induction false} CountsOfZero<T>(d: seq<T>)
    ensures SumInt(CountsOf(d, [])) == 0
  {
    if d != [] {
      CountsOfZero(d[..|d| - 1]);
    }
  }

  /** Sum of a list of reals, accumulated from the left. */
  function Sum(s: seq<real>): real {
    if s == [] then 0.0 else Sum(s[..|s| - 1]) + s[|s| - 1]
  }

  /** Sum of a list of integers, accumulated from the left. */
  function SumInt(s: seq<int>): int {
    if s == [] then 0 else SumInt(s[..|s| - 1]) + s[|s| - 1]
  }

  /** Arithmetic mean; an empty list has no mean and the callers never use it. */
  function Mean(s: seq<real>): real {
    if s == [] then 0.0 else Sum(s) / (|s| as real)
  }

  /** Position of the first minimum (itertools `position_min_by`, and a
      stable ascending sort followed by `first`). */
  function ArgMinFirst(s: seq<real>): (k: nat)
    requires |s| > 0
    ensures k < |s|
    ensures forall i :: 0 <= i < |s| ==> s[k] <= s[i]
    ensures forall i :: 0 <= i < k ==> s[k] < s[i]
  {
    if |s| == 1 then 0
    else
      var t := ArgMinFirst(s[1..]);
      if s[0] <= s[1 + t] then 0 else 1 + t
  }

  /** Minimum aggregation. */
  function Min(s: seq<real>): (m: real)
    requires |s| > 0
    ensures m in s && forall x :: x in s ==> m <= x
  {
    s[ArgMinFirst(s)]
  }

  /** Maximum aggregation. */
  function Max(s: seq<real>): (m: real)
    requires |s| > 0
    ensures m in s && forall x :: x in s ==> x <= m
  {
    if |s| == 1 then s[0]
    else
      var t := Max(s[1..]);
      assert forall x :: x in s ==> x == s[0] || x in s[1..];
      if t <= s[0] then s[0] else t
  }

  // ---------------------------------------------------------------------
  // Sorting

  ghost predicate TotalPreorder<T(!new)>(le: (T, T) -> bool) {
    && (forall a, b :: le(a, b) || le(b, a))
    && (forall a, b, c :: le(a, b) && le(b, c) ==> le(a, c))
  }

  ghost predicate Antisymmetric<T(!new)>(le: (T, T) -> bool) {
    forall a, b :: le(a, b) && le(b, a) ==> a == b
  }

  predicate SortedBy<T>(s: seq<T>, le: (T, T) -> bool) {
    forall i, j :: 0 <= i < j < |s| ==> le(s[i], s[j])
  }

  /** Inserts `x` before the first element it is `le` to. */
  function Insert<T>(x: T, s: seq<T>, le: (T, T) -> bool): (r: seq<T>)
    ensures |r| == |s| + 1
    ensures multiset(r) == multiset(s) + multiset{x}
  {
    if s == [] || le(x, s[0]) then [x] + s
    else
      assert s == [s[0]] + s[1..];
      [s[0]] + Insert(x, s[1..], le)
  }

  /** Stable ascending sort under `le` (insertion sort). */
  function Sort<T>(s: seq<T>, le: (T, T) -> bool): (r: seq<T>)
    ensures |r| == |s|
    ensures multiset(r) == multiset(s)
  {
    if s == [] then []
    else
      assert s == [s[0]] + s[1..];
      Insert(s[0], Sort(s[1..], le), le)
  }

  lemma {:induction false} InsertSorted<T(!new)>(x: T, s: seq<T>, le: (T, T) -> bool)
    requires TotalPreorder(le) && SortedBy(s, le)
    ensures SortedBy(Insert(x, s, le), le)
  {
    if s != [] && !le(x, s[0]) {
      InsertSorted(x, s[1..], le);
      var r := Insert(x, s, le);
      var t := Insert(x, s[1..], le);
      assert r == [s[0]] + t;
      assert le(s[0], x);
      forall k | 0 <= k < |t| ensures le(s[0], t[k]) {
        assert t[k] in multiset(t);
        assert t[k] == x || t[k] in multiset(s[1..]);
        if t[k] != x {
          var m :| 0 <= m < |s[1..]| && s[1..][m] == t[k];
          assert le(s[0], s[m + 1]);
        }
      }
    }
  }

  /** `Sort` sorts. */
  lemma {:induction false} SortSorted<T(!new)>(s: seq<T>, le: (T, T) -> bool)
    requires TotalPreorder(le)
    ensures SortedBy(Sort(s, le), le)
  {
    if s != [] {
      SortSorted(s[1..], le);
      InsertSorted(s[0], Sort(s[1..], le), le);
    }
  }

  /** The check `tuple_windows().all(|(a, b)| a <= b)`: every element is
      `le` to its successor. */
  predicate AdjacentSorted<T>(s: seq<T>, le: (T, T) -> bool) {
    forall i :: 0 < i < |s| ==> le(s[i - 1], s[i])
  }

  /** For a transitive order, checking neighbours is checking all pairs. */
  lemma AdjacentSortedIsSorted<T(!new)>(s: seq<T>, le: (T, T) -> bool)
    requires TotalPreorder(le)
    ensures AdjacentSorted(s, le) <==> SortedBy(s, le)
  {
    if AdjacentSorted(s, le) {
      forall i, j | 0 <= i < j < |s| ensures le(s[i], s[j]) {
        AdjacentSortedPair(s, le, i, j);
      }
    }
  }

  lemma {:induction false} AdjacentSortedPair<T(!new)>(s: seq<T>, le: (T, T) -> bool, i: nat, j: nat)
    requires TotalPreorder(le) && AdjacentSorted(s, le)
    requires i < j < |s|
    ensures le(s[i], s[j])
    decreases j - i
  {
    if i + 1 < j {
      AdjacentSortedPair(s, le, i, j - 1);
    }
  }

  /** A subsequence of a sorted sequence is sorted. */
  lemma {:induction false} FilterSorted<T(!new)>(s: seq<T>, keep: T -> bool, le: (T, T) -> bool)
    requires SortedBy(s, le)
    ensures SortedBy(Filter(s, keep), le)
  {
    if s != [] {
      FilterSorted(s[1..], keep, le);
      var t := Filter(s[1..], keep);
      forall k | 0 <= k < |t| ensures le(s[0], t[k]) {
        assert t[k] in s[1..];
        var m :| 0 <= m < |s[1..]| && s[1..][m] == t[k];
        assert s[m + 1] == t[k];
      }
    }
  }

  /** The distinct elements of a sorted sequence, in first-occurrence
      order, are sorted. */
  lemma DistinctSorted<T(!new)>(s: seq<T>, le: (T, T) -> bool)
    requires SortedBy(s, le)
    ensures SortedBy(Distinct(s), le)
  {
    var d := Distinct(s);
    forall i, j | 0 <= i < j < |d| ensures le(d[i], d[j]) {
      DistinctFirstOccurrenceOrder(s, i, j);
    }
  }

  /** Sorting keeps the elements. */
  lemma SortMember<T>(s: seq<T>, le: (T, T) -> bool, x: T)
    ensures x in Sort(s, le) <==> x in s
  {
    assert x in Sort(s, le) <==> x in multiset(Sort(s, le));
  }

  /** Two sorted sequences, every element of the first `le` every element
      of the second, concatenate to a sorted sequence. */
  lemma SortedAppend<T>(a: seq<T>, b: seq<T>, le: (T, T) -> bool)
    requires SortedBy(a, le) && SortedBy(b, le)
    requires forall x, y :: x in a && y in b ==> le(x, y)
    ensures SortedBy(a + b, le)
  {
    forall i, j | 0 <= i < j < |a + b| ensures le((a + b)[i], (a + b)[j]) {
      if i < |a| && j >= |a| {
        assert (a + b)[i] == a[i] && (a + b)[j] == b[j - |a|];
      }
    }
  }

  /** Concatenating sorted blocks, each block wholly `le` the later ones,
      gives a sorted sequence. */
  lemma {:induction false} FlattenSorted<T>(ss: seq<seq<T>>, le: (T, T) -> bool)
    requires forall i :: 0 <= i < |ss| ==> SortedBy(ss[i], le)
    requires forall i, j, x, y :: 0 <= i < j < |ss| && x in ss[i] && y in ss[j] ==> le(x, y)
    ensures SortedBy(Flatten(ss), le)
  {
    if ss != [] {
      assert forall i :: 0 <= i < |ss[1..]| ==> ss[1..][i] == ss[i + 1];
      FlattenSorted(ss[1..], le);
      forall x, y | x in ss[0] && y in Flatten(ss[1..]) ensures le(x, y) {
        FlattenMember(ss[1..], y);
        var j :| 0 <= j < |ss[1..]| && y in ss[1..][j];
        assert y in ss[j + 1];
      }
      SortedAppend(ss[0], Flatten(ss[1..]), le);
    }
  }

  /** Two duplicate-free sequences sorted under an antisymmetric order and
      holding the same elements are equal. */
  lemma {:induction false} SortedUnique<T(!new)>(a: seq<T>, b: seq<T>, le: (T, T) -> bool)
    requires Antisymmetric(le)
    requires SortedBy(a, le) && SortedBy(b, le) && NoDup(a) && NoDup(b)
    requires forall x :: x in a <==> x in b
    ensures a == b
  {
    if a != [] { assert a[0] in b; }
    if b != [] { assert b[0] in a; }
    if a != [] && b != [] {
      assert a[0] == b[0] by {
        var i := IndexOf(a, b[0]);
        var j := IndexOf(b, a[0]);
      }
      forall x ensures x in a[1..] <==> x in b[1..] {
        if x in a[1..] {
          var k :| 0 <= k < |a[1..]| && a[1..][k] == x;
          assert x != a[0];
          assert x in b;
          var m := IndexOf(b, x);
          assert m != 0;
          assert b[1..][m - 1] == x;
        }
        if x in b[1..] {
          var k :| 0 <= k < |b[1..]| && b[1..][k] == x;
          assert x != b[0];
          assert x in a;
          var m := IndexOf(a, x);
          assert m != 0;
          assert a[1..][m - 1] == x;
        }
      }
      SortedUnique(a[1..], b[1..], le);
      assert a == [a[0]] + a[1..];
      assert b == [b[0]] + b[1..];
    }
  }

  // ---------------------------------------------------------------------
  // Byte-wise lexicographic order on strings (Rust `String` and polars
  // `Utf8` ordering; comparing code points is the same as comparing the
  // UTF-8 bytes).

  predicate StrLe(a: string, b: string) {
    if a == [] then true
    else if b == [] then false
    else if a[0] != b[0] then a[0] < b[0]
    else StrLe(a[1..], b[1..])
  }

  lemma {:induction false} StrLeTotal(a: string, b: string)
    ensures StrLe(a, b) || StrLe(b, a)
  {
    if a != [] && b != [] && a[0] == b[0] {
      StrLeTotal(a[1..], b[1..]);
    }
  }

  lemma {:induction false} StrLeTransitive(a: string, b: string, c: string)
    requires StrLe(a, b) && StrLe(b, c)
    ensures StrLe(a, c)
  {
    if a != [] && b != [] && c != [] && a[0] == b[0] && b[0] == c[0] {
      StrLeTransitive(a[1..], b[1..], c[1..]);
    }
  }

  lemma {:induction false} StrLeAntisymmetric(a: string, b: string)
    requires StrLe(a, b) && StrLe(b, a)
    ensures a == b
  {
    if a != [] && b != [] {
      StrLeAntisymmetric(a[1..], b[1..]);
      assert a == [a[0]] + a[1..];
      assert b == [b[0]] + b[1..];
    }
  }
}
