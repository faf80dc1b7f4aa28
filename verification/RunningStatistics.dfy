/** Running mean and variance of performance test results, benchmark/scripts/compare_perf_tests.py. */
module RunningStatistics {

  // ---- the statistics of a list of samples

  function Sum(xs: seq<real>): real {
    if xs == [] then 0.0 else Sum(xs[..|xs| - 1]) + xs[|xs| - 1]
  }

  function Square(x: real): real {
    x * x
  }

  function Squares(xs: seq<real>): real {
    if xs == [] then 0.0 else Squares(xs[..|xs| - 1]) + Square(xs[|xs| - 1])
  }

  function Mean(xs: seq<real>): real
    requires xs != []
  {
    Sum(xs) / |xs| as real
  }

  /** The sum of the squared deviations from `m`. */
  function Deviations(xs: seq<real>, m: real): real {
    if xs == [] then 0.0
    else Deviations(xs[..|xs| - 1], m) + Square(xs[|xs| - 1] - m)
  }

  // ---- the running computation

  /** The count, the running mean and the running sum of squared deviations. */
  datatype State = State(k: nat, mean: real, s: real)

  function RunningMeanVariance(state: State, x: real): State {
    var k := state.k + 1;
    var m := state.mean + (x - state.mean) / k as real;
    var s := state.s + (x - state.mean) * (x - m);
    State(k, m, s)
  }

  function Pushed(state: State, xs: seq<real>): State {
    if xs == [] then state
    else RunningMeanVariance(Pushed(state, xs[..|xs| - 1]), xs[|xs| - 1])
  }

  /** The state holds the statistics of `xs` exactly. The mean of no samples may be anything. */
  ghost predicate Exact(state: State, xs: seq<real>) {
    state.k == |xs| && if xs == [] then state.s == 0.0 else state.mean == Mean(xs) && state.s == Deviations(xs, Mean(xs))
  }

  lemma {:induction false} DeviationsExpanded(xs: seq<real>, m: real)
    ensures Deviations(xs, m) == Expanded(Squares(xs), m, Sum(xs), |xs| as real)
  {
    if xs == [] {
      assert Expanded(0.0, m, 0.0, 0.0) == 0.0;
    } else {
      hide Square, Expanded;
      var rest, x := xs[..|xs| - 1], xs[|xs| - 1];
      DeviationsExpanded(rest, m);
      ExpandedNext(Squares(rest), m, Sum(rest), |rest| as real, x);
      assert |xs| as real == |rest| as real + 1.0;
    }
  }

  /** The squared deviations from `m` of `k` values with the given sum and sum of squares. */
  function Expanded(squares: real, m: real, sum: real, k: real): real {
    squares - 2.0 * m * sum + k * (m * m)
  }

  lemma ExpandedNext(squares: real, m: real, sum: real, k: real, x: real)
    ensures Expanded(squares, m, sum, k) + Square(x - m) == Expanded(squares + Square(x), m, sum + x, k + 1.0)
  {
  }

  function AboutMean(squares: real, mean: real, k: real): real {
    squares - k * (mean * mean)
  }

  /** The deviations from the mean, without the list. */
  lemma DeviationsFromMean(xs: seq<real>)
    requires xs != []
    ensures Deviations(xs, Mean(xs)) == AboutMean(Squares(xs), Mean(xs), |xs| as real)
  {
    SumFromMean(xs);
    hide Expanded, AboutMean, Squares, Deviations, Sum, Mean;
    DeviationsExpanded(xs, Mean(xs));
    Twice(Squares(xs), |xs| as real, Mean(xs), Sum(xs));
  }

  lemma SumFromMean(xs: seq<real>)
    requires xs != []
    ensures Sum(xs) == |xs| as real * Mean(xs)
  {
  }

  lemma Twice(squares: real, n: real, m: real, sum: real)
    requires sum == n * m
    ensures Expanded(squares, m, sum, n) == AboutMean(squares, m, n)
  {
    assert 2.0 * m * (n * m) == n * (m * m) + n * (m * m);
  }

  /** B. P. Welford's identity: `m` is the mean of `k` values, `q` the mean with `x` added. */
  lemma Welford(k: real, m: real, x: real, q: real)
    requires (k + 1.0) * q == k * m + x
    ensures (x - m) * (x - q) == x * x + k * (m * m) - (k + 1.0) * (q * q)
  {
    var l := k + 1.0;
    assert l * (q * q) == (l * q) * q == k * (m * q) + x * q;
    assert l * (q * m) == (l * q) * m == k * (m * m) + x * m;
    assert l * (q * m) == k * (m * q) + m * q;
    assert (x - m) * (x - q) == x * x - x * q - x * m + m * q;
  }

  /** One push keeps the statistics exact. */
  lemma PushIsExact(state: State, xs: seq<real>, x: real)
    requires Exact(state, xs)
    ensures Exact(RunningMeanVariance(state, x), xs + [x])
  {
    hide Sum, Deviations, Mean, RunningMeanVariance;
    if xs == [] {
      FirstPush(state, x);
      assert xs + [x] == [x];
    } else {
      NextMean(xs, x, state);
      NextDeviations(xs, x, state.mean, Mean(xs + [x]));
    }
  }

  lemma OneSample(x: real)
    ensures Mean([x]) == x && Deviations([x], x) == 0.0
  {
    assert [x][..0] == [];
    assert Sum([x]) == x;
  }

  lemma FirstPush(state: State, x: real)
    requires state.k == 0
    ensures RunningMeanVariance(state, x) == State(1, x, state.s)
    ensures Mean([x]) == x && Deviations([x], x) == 0.0
  {
    OneSample(x);
  }

  lemma NextDeviations(xs: seq<real>, x: real, m: real, q: real)
    requires xs != [] && m == Mean(xs) && q == Mean(xs + [x])
    requires (|xs| as real + 1.0) * q == |xs| as real * m + x
    ensures Deviations(xs + [x], q) == Deviations(xs, m) + (x - m) * (x - q)
  {
    var ys := xs + [x];
    SumsNext(xs, x);
    hide Deviations, Mean, Squares, AboutMean;
    DeviationsFromMean(xs);
    DeviationsFromMean(ys);
    NextFromSquares(Squares(xs), |xs| as real, m, x, q);
    assert |ys| as real == |xs| as real + 1.0;
  }

  lemma SumsNext(xs: seq<real>, x: real)
    ensures Sum(xs + [x]) == Sum(xs) + x && Squares(xs + [x]) == Squares(xs) + Square(x)
  {
    hide Square;
    assert (xs + [x])[..|xs|] == xs;
  }

  lemma NextFromSquares(squares: real, k: real, m: real, x: real, q: real)
    requires (k + 1.0) * q == k * m + x
    ensures AboutMean(squares + Square(x), q, k + 1.0) == AboutMean(squares, m, k) + (x - m) * (x - q)
  {
    Welford(k, m, x, q);
  }

  lemma NextMean(xs: seq<real>, x: real, state: State)
    requires xs != [] && state.k == |xs| && state.mean == Mean(xs)
    ensures var q := RunningMeanVariance(state, x).mean;
            RunningMeanVariance(state, x) == State(|xs| + 1, q, state.s + (x - state.mean) * (x - q))
            && q == Mean(xs + [x]) && (|xs| as real + 1.0) * q == |xs| as real * state.mean + x
  {
    var k, m := |xs| as real, state.mean;
    assert (xs + [x])[..|xs|] == xs;
    var q := m + (x - m) / (k + 1.0);
    assert (k + 1.0) * q == (k + 1.0) * m + (x - m);
  }

  /** Pushing any further samples gives the statistics of all of them. */
  lemma {:induction false} PushedIsExact(state: State, xs: seq<real>, ys: seq<real>)
    requires Exact(state, xs)
    ensures Exact(Pushed(state, ys), xs + ys)
  {
    if ys == [] {
      assert xs + ys == xs;
    } else {
      var rest, y := ys[..|ys| - 1], ys[|ys| - 1];
      PushedIsExact(state, xs, rest);
      PushIsExact(Pushed(state, rest), xs + rest, y);
      assert xs + ys == xs + rest + [y];
    }
  }

  /** After a push nothing is lost but the order: what was inexact before stays so. */
  lemma PushIsInjective(state: State, other: State, x: real)
    requires state.k == other.k > 0 && RunningMeanVariance(state, x) == RunningMeanVariance(other, x)
    ensures state == other
  {
    SameMeanBefore(state.mean, other.mean, x, state.k as real);
  }

  lemma SameMeanBefore(m: real, q: real, x: real, k: real)
    requires k > 0.0 && m + (x - m) / (k + 1.0) == q + (x - q) / (k + 1.0)
    ensures m == q
  {
    assert (k + 1.0) * (m + (x - m) / (k + 1.0)) == k * m + x;
    assert (k + 1.0) * (q + (x - q) / (k + 1.0)) == k * q + x;
    assert k * (m - q) == 0.0;
  }

  function ExactState(xs: seq<real>): State
    requires xs != []
  {
    State(|xs|, Mean(xs), Deviations(xs, Mean(xs)))
  }

  lemma PushIsExactOnlyFromExact(state: State, xs: seq<real>, x: real)
    requires xs != [] && state.k == |xs|
    ensures Exact(RunningMeanVariance(state, x), xs + [x]) <==> Exact(state, xs)
  {
    hide RunningMeanVariance, Mean, Deviations;
    PushIsExact(ExactState(xs), xs, x);
    PushCounts(state, x);
    if Exact(RunningMeanVariance(state, x), xs + [x]) {
      assert RunningMeanVariance(state, x) == RunningMeanVariance(ExactState(xs), x);
      PushIsInjective(state, ExactState(xs), x);
    } else if Exact(state, xs) {
      PushIsExact(state, xs, x);
    }
  }

  lemma PushCounts(state: State, x: real)
    ensures RunningMeanVariance(state, x).k == state.k + 1
  {
  }

  lemma {:induction false} CountsPushed(state: State, xs: seq<real>)
    ensures Pushed(state, xs).k == state.k + |xs|
  {
    if xs != [] {
      CountsPushed(state, xs[..|xs| - 1]);
    }
  }

  /** Pushing samples onto the statistics of others gives those of all of them if and only if it started from exact ones. */
  lemma {:induction false} PushedIsExactOnlyFromExact(state: State, xs: seq<real>, ys: seq<real>)
    requires xs != [] && state.k == |xs|
    ensures Exact(Pushed(state, ys), xs + ys) <==> Exact(state, xs)
  {
    hide Exact, RunningMeanVariance;
    if ys == [] {
      assert xs + ys == xs;
    } else {
      var rest, y := ys[..|ys| - 1], ys[|ys| - 1];
      PushedIsExactOnlyFromExact(state, xs, rest);
      CountsPushed(state, rest);
      PushIsExactOnlyFromExact(Pushed(state, rest), xs + rest, y);
      assert xs + ys == xs + rest + [y];
    }
  }

  // ---- the order does not matter

  lemma {:induction false} Around(a: seq<real>, x: real, b: seq<real>)
    ensures Sum(a + [x] + b) == Sum(a + b) + x && Squares(a + [x] + b) == Squares(a + b) + Square(x)
  {
    hide Square, Sum, Squares;
    if b == [] {
      SumsNext(a, x);
      assert a + [x] + b == a + [x] && a + b == a;
    } else {
      var rest, y := b[..|b| - 1], b[|b| - 1];
      Around(a, x, rest);
      SumsNext(a + [x] + rest, y);
      SumsNext(a + rest, y);
      assert a + [x] + b == a + [x] + rest + [y];
      assert a + b == a + rest + [y];
    }
  }

  lemma TakenFromBoth(rest: seq<real>, x: real, a: seq<real>, b: seq<real>)
    requires multiset(rest + [x]) == multiset(a + [x] + b)
    ensures multiset(rest) == multiset(a + b)
  {
    assert multiset(rest) == multiset(rest + [x]) - multiset{x};
    assert multiset(a + b) == multiset(a + [x] + b) - multiset{x};
  }

  lemma {:induction false} SumsOfPermutation(xs: seq<real>, ys: seq<real>)
    requires multiset(xs) == multiset(ys)
    ensures |xs| == |ys| && Sum(xs) == Sum(ys) && Squares(xs) == Squares(ys)
  {
    hide Sum, Squares;
    assert |multiset(xs)| == |xs| && |multiset(ys)| == |ys|;
    if xs == [] {
      assert ys == [];
    } else {
      var rest, x := xs[..|xs| - 1], xs[|xs| - 1];
      assert xs == rest + [x];
      assert x in multiset(ys);
      var i :| 0 <= i < |ys| && ys[i] == x;
      var a, b := ys[..i], ys[i + 1..];
      assert ys == a + [x] + b;
      TakenFromBoth(rest, x, a, b);
      SumsOfPermutation(rest, a + b);
      Around(a, x, b);
      Around(rest, x, []);
      assert rest + [x] + [] == xs && rest + [] == rest;
    }
  }

  /** Exact statistics are those of the samples in any order. */
  lemma ExactInAnyOrder(state: State, xs: seq<real>, ys: seq<real>)
    requires Exact(state, xs) && multiset(xs) == multiset(ys)
    ensures Exact(state, ys)
  {
    hide Deviations, Squares, Sum, AboutMean;
    SumsOfPermutation(xs, ys);
    if xs != [] {
      DeviationsFromMean(xs);
      DeviationsFromMean(ys);
    }
  }

  // ---- test results

  /** The first of the least, the greatest and the middle value, as many as there are samples. */
  function MergedValues(min: real, max: real, median: real, samples: nat): seq<real> {
    [min, max, median][..if samples < 3 then samples else 3]
  }

  ghost predicate Sorted(xs: seq<real>) {
    forall i, j :: 0 <= i < j < |xs| ==> xs[i] <= xs[j]
  }

  /** One row of a log. The count becomes a float when it is computed. */
  class PerformanceTestResult {
    const name: string
    var samples: nat
    var samplesIsFloat: bool
    var min: real
    var max: real
    var mean: real
    var sRuntime: real
    var median: real

    constructor (name: string, samples: nat, min: int, max: int, mean: int, sd: int, median: int)
      ensures this.name == name && this.samples == samples && !samplesIsFloat
      ensures this.min == min as real && this.max == max as real && this.median == median as real
      ensures this.mean == mean as real && (samples >= 2 ==> sRuntime / (samples - 1) as real == (sd * sd) as real)
      ensures samples < 2 ==> sRuntime == 0.0
    {
      this.name, this.samples, samplesIsFloat := name, samples, false;
      this.min, this.max, this.mean, this.median := min as real, max as real, mean as real, median as real;
      sRuntime := if samples < 2 then 0.0 else (sd * sd) as real * (samples - 1) as real;
    }

    ghost function Running(): State
      reads this
    {
      State(samples, mean, sRuntime)
    }

    /** What the count, the minimum and the maximum should be for the samples `xs`. */
    ghost predicate Spans(xs: seq<real>)
      reads this
    {
      samples == |xs| && min in xs && max in xs && forall x :: x in xs ==> min <= x <= max
    }

    /** As `Spans`, for samples in order, and with the middle sample as median from three on. */
    ghost predicate Reports(sorted: seq<real>)
      reads this
    {
      && samples == |sorted| > 0 && Sorted(sorted)
      && min == sorted[0] && max == sorted[|sorted| - 1]
      && (|sorted| >= 3 ==> median == sorted[|sorted| / 2])
    }

    /** A row as it was read, of at most three samples. */
    ghost predicate Mergeable(sorted: seq<real>)
      reads this
    {
      !samplesIsFloat && Reports(sorted) && |sorted| <= 3
    }

    /** Whether mean and squared deviations are what the other fields of a row of up to three samples say. */
    ghost predicate FieldsAgree()
      reads this
    {
      StatisticsAgree(Running(), min, max, median)
    }

    lemma ReportsSpan(sorted: seq<real>)
      requires Reports(sorted)
      ensures Spans(sorted)
    {
    }

    method Push(x: real)
      modifies this
      ensures Running() == RunningMeanVariance(old(Running()), x) && samplesIsFloat
      ensures min == old(min) && max == old(max) && median == old(median)
    {
      var k := samples + 1;
      var m := mean + (x - mean) / k as real;
      var s := sRuntime + (x - mean) * (x - m);
      samples, mean, sRuntime := k, m, s;
      samplesIsFloat := true;
    }

    /** Raises an error, with minimum and maximum changed already, when the slice is given a float. */
    method Merge(r: PerformanceTestResult) returns (raised: bool)
      modifies this
      ensures raised <==> old(r.samplesIsFloat) && old(r.samples) <= 3
      ensures min == (if old(min) <= old(r.min) then old(min) else old(r.min))
      ensures max == (if old(max) >= old(r.max) then old(max) else old(r.max))
      ensures median == old(median)
      ensures samplesIsFloat <==> old(samplesIsFloat) || (!raised && old(r.samples) > 0)
      ensures Running() == if raised then old(Running())
                           else Pushed(old(Running()), MergedValues(old(r.min), old(r.max), old(r.median), old(r.samples)))
    {
      min := if min <= r.min then min else r.min;
      max := if max >= r.max then max else r.max;
      if r.samplesIsFloat && r.samples <= 3 {
        return true;
      }
      var values := MergedValues(r.min, r.max, r.median, r.samples);
      for i := 0 to |values|
        invariant min == (if old(min) <= old(r.min) then old(min) else old(r.min))
        invariant max == (if old(max) >= old(r.max) then old(max) else old(r.max))
        invariant median == old(median)
        invariant samplesIsFloat <==> old(samplesIsFloat) || i > 0
        invariant Running() == Pushed(old(Running()), values[..i])
      {
        Push(values[i]);
        assert values[..i + 1][..i] == values[..i];
      }
      assert values[..|values|] == values;
      return false;
    }
  }

  /** Any samples can be reported, one alone and equal ones included, and up to three so that they can be merged. */
  method RowFor(name: string, sorted: seq<int>, mean: int, sd: int) returns (row: PerformanceTestResult)
    requires sorted != [] && forall i, j :: 0 <= i < j < |sorted| ==> sorted[i] <= sorted[j]
    ensures fresh(row) && row.name == name
    ensures row.Reports(Reals(sorted)) && (row.Mergeable(Reals(sorted)) <==> |sorted| <= 3)
  {
    var n := |sorted|;
    row := new PerformanceTestResult(name, n, sorted[0], sorted[n - 1], mean, sd, sorted[n / 2]);
  }

  function Reals(xs: seq<int>): (ys: seq<real>)
    ensures |ys| == |xs|
  {
    seq(|xs|, i requires 0 <= i < |xs| => xs[i] as real)
  }

  /** A summary of at most three samples is as good as the samples. */
  lemma ValuesAreSamples(sorted: seq<real>, median: real)
    requires 1 <= |sorted| <= 3 && (|sorted| == 3 ==> median == sorted[1])
    ensures var n := |sorted|; multiset(MergedValues(sorted[0], sorted[n - 1], median, n)) == multiset(sorted)
  {
    var n := |sorted|;
    var values := MergedValues(sorted[0], sorted[n - 1], median, n);
    if n < 3 {
      assert values == sorted;
    } else {
      assert sorted == [sorted[0], sorted[1], sorted[2]];
      assert values == [sorted[0], sorted[2], sorted[1]];
    }
  }

  /** What is pushed for a result of at most three samples: the statistics come out exact for all samples if and
      only if they were before. */
  lemma MergedIsExactOnlyFromExact(state: State, xs: seq<real>, ys: seq<real>, median: real)
    requires xs != [] && state.k == |xs|
    requires 1 <= |ys| <= 3 && (|ys| == 3 ==> median == ys[1])
    ensures var merged := Pushed(state, MergedValues(ys[0], ys[|ys| - 1], median, |ys|));
            merged.k == |xs + ys| && (Exact(merged, xs + ys) <==> Exact(state, xs))
  {
    hide Exact, Pushed, MergedValues;
    var values := MergedValues(ys[0], ys[|ys| - 1], median, |ys|);
    ValuesAreSamples(ys, median);
    assert |multiset(values)| == |multiset(ys)|;
    CountsPushed(state, values);
    PushedIsExactOnlyFromExact(state, xs, values);
    var merged := Pushed(state, values);
    assert multiset(xs + values) == multiset(xs + ys) == multiset(xs) + multiset(ys);
    if Exact(merged, xs + values) {
      ExactInAnyOrder(merged, xs + values, xs + ys);
    }
    if Exact(merged, xs + ys) {
      ExactInAnyOrder(merged, xs + ys, xs + values);
    }
  }

  /** Merging a result of at most three samples gives the count and the extremes of all samples. The mean and the
      squared deviations are exact afterwards if and only if they were before. Those of `r` are never read. */
  method MergeIsExact(t: PerformanceTestResult, r: PerformanceTestResult, ghost xs: seq<real>, ghost ys: seq<real>)
      returns (raised: bool)
    requires t.Spans(xs) && r.Reports(ys) && |ys| <= 3
    modifies t
    ensures raised <==> old(r.samplesIsFloat)
    ensures !raised ==> t.Spans(xs + ys) && (Exact(t.Running(), xs + ys) <==> old(Exact(t.Running(), xs)))
  {
    hide Exact, Pushed, MergedValues;
    MergedIsExactOnlyFromExact(t.Running(), xs, ys, r.median);
    r.ReportsSpan(ys);
    raised := t.Merge(r);
  }

  /** The count comes out right exactly if the other result has at most three samples. */
  lemma CountIsExactUpToThree(state: State, min: real, max: real, median: real, samples: nat)
    ensures Pushed(state, MergedValues(min, max, median, samples)).k == state.k + samples <==> samples <= 3
  {
    CountsPushed(state, MergedValues(min, max, median, samples));
  }

  /** A result that was merged cannot be merged any more while it has at most three samples: here two of one sample
      each into a third. */
  method MergedResultRaises() returns (t: PerformanceTestResult, u: PerformanceTestResult, raised: bool)
    ensures raised && t.samples == 2 && t.samplesIsFloat && u.samples == 1
  {
    t := new PerformanceTestResult("test", 1, 1, 1, 1, 0, 1);
    var r := new PerformanceTestResult("test", 1, 2, 2, 2, 0, 2);
    u := new PerformanceTestResult("test", 1, 3, 3, 3, 0, 3);
    CountsPushed(t.Running(), MergedValues(r.min, r.max, r.median, r.samples));
    raised := t.Merge(r);
    raised := u.Merge(t);
  }

  // ---- which rows are exact

  /** What the mean and the squared deviations have to be, by the other fields of a row of one, two or three samples. */
  predicate StatisticsAgree(state: State, min: real, max: real, median: real) {
    if state.k == 1 then state.mean == min && state.s == 0.0
    else if state.k == 2 then
      2.0 * state.mean == min + max && 2.0 * state.s == Square(max - min)
    else
      && 3.0 * state.mean == min + max + median
      && 3.0 * state.s == Square(max - min) + Square(max - median) + Square(median - min)
  }

  lemma SumsOfTwo(x: real, y: real)
    ensures Sum([x, y]) == x + y && Squares([x, y]) == Square(x) + Square(y)
  {
    hide Square;
    assert [x, y][..1] == [x] && [x][..0] == [];
    assert Sum([x]) == x && Squares([x]) == Square(x);
  }

  lemma SumsOfThree(x: real, y: real, z: real)
    ensures Sum([x, y, z]) == x + y + z && Squares([x, y, z]) == Square(x) + Square(y) + Square(z)
  {
    hide Square, Sum, Squares;
    SumsOfTwo(x, y);
    SumsNext([x, y], z);
    assert [x, y] + [z] == [x, y, z];
  }

  lemma TwoApart(x: real, y: real, m: real)
    requires 2.0 * m == x + y
    ensures 2.0 * AboutMean(Square(x) + Square(y), m, 2.0) == Square(y - x)
  {
    assert 4.0 * (m * m) == (x + y) * (x + y);
  }

  lemma ThreeApart(x: real, y: real, z: real, m: real)
    requires 3.0 * m == x + y + z
    ensures 3.0 * AboutMean(Square(x) + Square(y) + Square(z), m, 3.0) == Square(z - x) + Square(z - y) + Square(y - x)
  {
    assert 9.0 * (m * m) == (x + y + z) * (x + y + z);
  }

  /** The statistics of a row of at most three samples are exact if and only if its own fields agree. */
  lemma ExactIfFieldsAgree(state: State, ys: seq<real>, median: real)
    requires state.k == |ys| && 1 <= |ys| <= 3 && (|ys| == 3 ==> median == ys[1])
    ensures Exact(state, ys) <==> StatisticsAgree(state, ys[0], ys[|ys| - 1], median)
  {
    hide Sum, Squares, Deviations, Mean, Square, AboutMean;
    var m := Mean(ys);
    SumFromMean(ys);
    DeviationsFromMean(ys);
    if |ys| == 1 {
      assert ys == [ys[0]];
      OneSample(ys[0]);
    } else if |ys| == 2 {
      assert ys == [ys[0], ys[1]];
      SumsOfTwo(ys[0], ys[1]);
      TwoApart(ys[0], ys[1], m);
    } else {
      assert ys == [ys[0], ys[1], ys[2]];
      SumsOfThree(ys[0], ys[1], ys[2]);
      ThreeApart(ys[0], ys[1], ys[2], m);
    }
  }

  /** The row with mean 1 and standard deviation 1 that samples of 1 and 2 are logged as. */
  method RoundedRowIsInexact() returns (r: PerformanceTestResult)
    ensures r.Reports([1.0, 2.0]) && !r.samplesIsFloat && !Exact(r.Running(), [1.0, 2.0])
  {
    r := new PerformanceTestResult("test", 2, 1, 2, 1, 1, 2);
    ExactIfFieldsAgree(r.Running(), [1.0, 2.0], r.median);
  }

  // ---- the results of a log, merged by name

  /** All samples of the results with a name. */
  ghost function SamplesNamed(tests: seq<PerformanceTestResult>, samples: seq<seq<real>>, name: string): seq<real>
    requires |samples| == |tests|
  {
    if tests == [] then []
    else
      var n := |tests| - 1;
      SamplesNamed(tests[..n], samples[..n], name) + if tests[n].name == name then samples[n] else []
  }

  ghost predicate IsFirst(tests: seq<PerformanceTestResult>, i: nat)
    requires i < |tests|
  {
    forall j :: 0 <= j < i ==> tests[j].name != tests[i].name
  }

  /** Result `i` stands for the samples of all the first `n` results of its name. */
  ghost predicate StandsFor(tests: seq<PerformanceTestResult>, samples: seq<seq<real>>, i: nat, n: nat, exact: bool)
    requires |samples| == |tests| && i < n <= |tests|
    reads tests[i]
  {
    var all := SamplesNamed(tests[..n], samples[..n], tests[i].name);
    tests[i].Spans(all) && (Exact(tests[i].Running(), all) <==> exact)
  }

  /** The first result of a name is kept, and later ones are merged into it. */
  method AddOrMerge(names: map<string, PerformanceTestResult>, r: PerformanceTestResult, ghost xs: seq<real>, ghost ys: seq<real>)
      returns (names': map<string, PerformanceTestResult>)
    requires r.name in names ==>
               names[r.name] != r && names[r.name].Spans(xs) && r.Mergeable(ys)
    modifies if r.name in names then {names[r.name]} else {}
    ensures r.name !in names ==> names' == names[r.name := r]
    ensures r.name in names ==>
              var t := names[r.name];
              names' == names && t.Spans(xs + ys) && (Exact(t.Running(), xs + ys) <==> old(Exact(t.Running(), xs)))
  {
    hide Exact;
    if r.name !in names {
      names' := names[r.name := r];
    } else {
      names' := names;
      var raised := MergeIsExact(names[r.name], r, xs, ys);
    }
  }

  lemma SamplesNext(tests: seq<PerformanceTestResult>, samples: seq<seq<real>>, n: nat, name: string)
    requires |samples| == |tests| && n < |tests|
    ensures SamplesNamed(tests[..n + 1], samples[..n + 1], name)
            == SamplesNamed(tests[..n], samples[..n], name) + if tests[n].name == name then samples[n] else []
  {
    assert tests[..n + 1][..n] == tests[..n] && samples[..n + 1][..n] == samples[..n];
  }

  lemma {:induction false} NoSamplesBeforeFirst(tests: seq<PerformanceTestResult>, samples: seq<seq<real>>, n: nat, name: string)
    requires |samples| == |tests| && n <= |tests| && forall j :: 0 <= j < n ==> tests[j].name != name
    ensures SamplesNamed(tests[..n], samples[..n], name) == []
  {
    if n > 0 {
      NoSamplesBeforeFirst(tests, samples, n - 1, name);
      SamplesNext(tests, samples, n - 1, name);
    } else {
      assert tests[..0] == [];
    }
  }

  function FirstNamed(tests: seq<PerformanceTestResult>, n: nat): (i: nat)
    requires n < |tests|
    ensures i <= n && tests[i].name == tests[n].name && IsFirst(tests, i)
  {
    FirstFrom(tests, n, 0)
  }

  function FirstFrom(tests: seq<PerformanceTestResult>, n: nat, k: nat): (i: nat)
    requires k <= n < |tests| && forall j :: 0 <= j < k ==> tests[j].name != tests[n].name
    ensures i <= n && tests[i].name == tests[n].name && IsFirst(tests, i)
    decreases n - k
  {
    if tests[k].name == tests[n].name then k else FirstFrom(tests, n, k + 1)
  }

  /** `names` holds the first result of each of the names of the first `n` results. */
  ghost predicate HoldsFirsts(names: map<string, PerformanceTestResult>, tests: seq<PerformanceTestResult>, n: nat)
    requires n <= |tests|
  {
    && (forall i :: 0 <= i < n && IsFirst(tests, i) ==> tests[i].name in names && names[tests[i].name] == tests[i])
    && (forall name :: name in names ==> exists i :: 0 <= i < n && tests[i].name == name)
  }

  lemma OthersStand(tests: seq<PerformanceTestResult>, samples: seq<seq<real>>, i: nat, n: nat, exact: bool)
    requires |samples| == |tests| && i < n < |tests| && tests[i].name != tests[n].name
    requires StandsFor(tests, samples, i, n, exact)
    ensures StandsFor(tests, samples, i, n + 1, exact)
  {
    hide Exact;
    SamplesNext(tests, samples, n, tests[i].name);
    var all := SamplesNamed(tests[..n], samples[..n], tests[i].name);
    assert all + [] == all;
  }

  lemma FirstMeans(tests: seq<PerformanceTestResult>, i: nat)
    requires i < |tests| && IsFirst(tests, i)
    ensures forall j :: 0 <= j < i ==> tests[j].name != tests[i].name
  {
  }

  lemma OnlyFirst(tests: seq<PerformanceTestResult>, i: nat, f: nat)
    requires i < |tests| && f < |tests| && IsFirst(tests, i) && IsFirst(tests, f) && i != f
    ensures tests[i].name != tests[f].name
  {
  }

  /** The next result is the first of its name exactly if the name is not held yet. */
  lemma FirstOrHeld(names: map<string, PerformanceTestResult>, tests: seq<PerformanceTestResult>, n: nat)
    requires n < |tests| && HoldsFirsts(names, tests, n)
    ensures var f := FirstNamed(tests, n);
            if f == n then tests[n].name !in names else tests[n].name in names && names[tests[n].name] == tests[f]
  {
    hide FirstNamed, IsFirst;
    var name, f := tests[n].name, FirstNamed(tests, n);
    if f == n && name in names {
      var i :| 0 <= i < n && tests[i].name == name;
      FirstMeans(tests, n);
      assert false;
    }
  }

  lemma FirstsNext(names: map<string, PerformanceTestResult>, tests: seq<PerformanceTestResult>, n: nat,
                   names': map<string, PerformanceTestResult>)
    requires n < |tests| && HoldsFirsts(names, tests, n)
    requires var name := tests[n].name; names' == if name in names then names else names[name := tests[n]]
    ensures HoldsFirsts(names', tests, n + 1)
  {
    hide FirstNamed, IsFirst;
    FirstOrHeld(names, tests, n);
    var f := FirstNamed(tests, n);
    forall i | 0 <= i < n + 1 && IsFirst(tests, i)
      ensures tests[i].name in names' && names'[tests[i].name] == tests[i]
    {
      if i != f {
        OnlyFirst(tests, i, f);
      }
    }
    forall name | name in names'
      ensures exists i :: 0 <= i < n + 1 && tests[i].name == name
    {
      if name in names {
        var i :| 0 <= i < n && tests[i].name == name;
        assert 0 <= i < n + 1;
      } else {
        assert tests[n].name == name;
      }
    }
  }

  /** One round of the loop: `exact` says of each result whether its statistics were exact in its row. */
  method LoadNext(names: map<string, PerformanceTestResult>, tests: seq<PerformanceTestResult>,
                  ghost samples: seq<seq<real>>, n: nat, ghost exact: seq<bool>)
      returns (names': map<string, PerformanceTestResult>)
    requires |samples| == |tests| == |exact| && n < |tests|
    requires forall i, j :: 0 <= i < j < |tests| ==> tests[i] != tests[j]
    requires if IsFirst(tests, n) then tests[n].Spans(samples[n]) else tests[n].Mergeable(samples[n])
    requires exact[n] == Exact(tests[n].Running(), samples[n])
    requires HoldsFirsts(names, tests, n)
    requires forall i :: 0 <= i < n && IsFirst(tests, i) ==> StandsFor(tests, samples, i, n, exact[i])
    modifies set i | 0 <= i < n :: tests[i]
    ensures HoldsFirsts(names', tests, n + 1)
    ensures forall i :: 0 <= i <= n && IsFirst(tests, i) ==> StandsFor(tests, samples, i, n + 1, exact[i])
  {
    hide Exact, SamplesNamed, StandsFor, HoldsFirsts, IsFirst, FirstNamed;
    FirstOrHeld(names, tests, n);
    ghost var r, f := tests[n], FirstNamed(tests, n);
    ghost var xs := SamplesNamed(tests[..n], samples[..n], r.name);
    forall i | 0 <= i < n && IsFirst(tests, i) && i != f
      ensures StandsFor(tests, samples, i, n + 1, exact[i])
    {
      OnlyFirst(tests, i, f);
      OthersStand(tests, samples, i, n, exact[i]);
    }
    SamplesNext(tests, samples, n, r.name);
    if f == n {
      FirstMeans(tests, n);
      NoSamplesBeforeFirst(tests, samples, n, r.name);
      assert xs + samples[n] == samples[n];
      NowStands(tests, samples, n, n + 1, exact[n]);
    } else {
      if IsFirst(tests, n) {
        OnlyFirst(tests, n, f);
      }
      HasStood(tests, samples, f, n, exact[f]);
    }
    names' := AddOrMerge(names, tests[n], xs, samples[n]);
    FirstsNext(names, tests, n, names');
    NowStands(tests, samples, f, n + 1, exact[f]);
  }

  lemma NowStands(tests: seq<PerformanceTestResult>, samples: seq<seq<real>>, i: nat, n: nat, exact: bool)
    requires |samples| == |tests| && i < n <= |tests|
    requires var all := SamplesNamed(tests[..n], samples[..n], tests[i].name);
             tests[i].Spans(all) && (Exact(tests[i].Running(), all) <==> exact)
    ensures StandsFor(tests, samples, i, n, exact)
  {
  }

  lemma HasStood(tests: seq<PerformanceTestResult>, samples: seq<seq<real>>, i: nat, n: nat, exact: bool)
    requires |samples| == |tests| && i < n <= |tests| && StandsFor(tests, samples, i, n, exact)
    ensures var all := SamplesNamed(tests[..n], samples[..n], tests[i].name);
            tests[i].Spans(all) && (Exact(tests[i].Running(), all) <==> exact)
  {
  }

  /** For each result whether its statistics are exactly those of its samples. */
  ghost function ExactRows(tests: seq<PerformanceTestResult>, samples: seq<seq<real>>): (exact: seq<bool>)
    requires |samples| == |tests|
    reads set t | t in tests
    ensures |exact| == |tests| && forall i :: 0 <= i < |tests| ==> exact[i] == Exact(tests[i].Running(), samples[i])
  {
    if tests == [] then []
    else
      var n := |tests| - 1;
      ExactRows(tests[..n], samples[..n]) + [Exact(tests[n].Running(), samples[n])]
  }

  lemma NoResults(tests: seq<PerformanceTestResult>)
    ensures HoldsFirsts(map[], tests, 0)
  {
  }

  /** Loading a log. For every name, the count and the extremes of the result that is kept are those of all samples
      of that name; the mean and the squared deviations are exact if and only if they were in the first row. */
  method LoadResults(tests: seq<PerformanceTestResult>, ghost samples: seq<seq<real>>)
      returns (names: map<string, PerformanceTestResult>)
    requires |samples| == |tests| && forall i, j :: 0 <= i < j < |tests| ==> tests[i] != tests[j]
    requires forall i :: 0 <= i < |tests| ==>
               if IsFirst(tests, i) then tests[i].Spans(samples[i]) else tests[i].Mergeable(samples[i])
    modifies set i | 0 <= i < |tests| :: tests[i]
    ensures HoldsFirsts(names, tests, |tests|)
    ensures forall i :: 0 <= i < |tests| && IsFirst(tests, i) ==>
              StandsFor(tests, samples, i, |tests|, old(Exact(tests[i].Running(), samples[i])))
    ensures forall i :: 0 <= i < |tests| && IsFirst(tests, i) && |samples[i]| <= 3 && old(tests[i].Reports(samples[i])) ==>
              StandsFor(tests, samples, i, |tests|, old(tests[i].FieldsAgree()))
  {
    hide Exact, StandsFor, HoldsFirsts, IsFirst, ExactRows;
    forall i | 0 <= i < |tests| && |samples[i]| <= 3 && tests[i].Reports(samples[i])
      ensures tests[i].FieldsAgree() <==> Exact(tests[i].Running(), samples[i])
    {
      ExactIfFieldsAgree(tests[i].Running(), samples[i], tests[i].median);
    }
    names := map[];
    NoResults(tests);
    ghost var exact := ExactRows(tests, samples);
    for n := 0 to |tests|
      invariant HoldsFirsts(names, tests, n)
      invariant forall i :: 0 <= i < n && IsFirst(tests, i) ==> StandsFor(tests, samples, i, n, exact[i])
      invariant forall i :: n <= i < |tests| ==> unchanged(tests[i])
    {
      names := LoadNext(names, tests, samples, n, exact);
    }
  }
}
