/** The series the last two charts draw from the aggregated lists: the
    task-count curve (one point per distinct task count) and the PSO/GA
    makespan ratio over the groups that have a GA result. */
module Derived {
  import opened Wrappers
  import opened StableSort
  import opened Numerals

  predicate StrictlyIncreasing(s: seq<nat>) {
    forall a, b :: 0 <= a < b < |s| ==> s[a] < s[b]
  }

  // ---------------------------------------------------------------------
  // Ratio chart (lines 151-152 and 157)
  // ---------------------------------------------------------------------

  /** A numpy float division: a zero divisor gives inf or nan, which the
      model does not distinguish. */
  datatype Quotient = Finite(value: real) | NonFinite

  function Divide(a: real, b: real): (q: Quotient)
    ensures q.Finite? <==> b != 0.0
    ensures q.Finite? ==> q.value * b == a
  {
    if b == 0.0 then NonFinite else Finite(a / b)
  }

  /** np.where(~np.isnan(ga))[0]: the positions whose GA value is present. */
  function Positions(ga: seq<Option<real>>): seq<nat> {
    if ga == [] then []
    else
      var n := |ga| - 1;
      Positions(ga[..n]) + (if ga[n].Some? then [n] else [])
  }

  /** The positions are exactly the ones with a GA value, in increasing order. */
  lemma {:induction false} PositionsAreThePresentOnes(ga: seq<Option<real>>)
    ensures StrictlyIncreasing(Positions(ga))
    ensures forall k :: 0 <= k < |Positions(ga)| ==>
              Positions(ga)[k] < |ga| && ga[Positions(ga)[k]].Some?
    ensures forall i :: 0 <= i < |ga| && ga[i].Some? ==> i in Positions(ga)
  {
    if ga != [] {
      var n := |ga| - 1;
      var pre := ga[..n];
      PositionsAreThePresentOnes(pre);
      assert forall i :: 0 <= i < n ==> pre[i] == ga[i];
    }
  }

  /** When every group has a GA value, every position is kept. */
  lemma {:induction false} AllPresentKeepsAll(ga: seq<Option<real>>)
    requires forall i :: 0 <= i < |ga| ==> ga[i].Some?
    ensures |Positions(ga)| == |ga|
    ensures forall k :: 0 <= k < |ga| ==> Positions(ga)[k] == k
  {
    if ga != [] {
      var n := |ga| - 1;
      AllPresentKeepsAll(ga[..n]);
    }
  }

  /** The ratio bars: pso_avg / ga at each position with a GA value. */
  function Ratios(psoAvg: seq<real>, ga: seq<Option<real>>): seq<Quotient>
    requires |psoAvg| == |ga|
  {
    if ga == [] then []
    else
      var n := |ga| - 1;
      Ratios(psoAvg[..n], ga[..n])
        + (if ga[n].Some? then [Divide(psoAvg[n], ga[n].value)] else [])
  }

  /** Bar k divides the PSO mean by the GA value at the k-th present position,
      so a missing GA value never yields a bar. */
  lemma {:induction false} RatiosAtPositions(psoAvg: seq<real>, ga: seq<Option<real>>)
    requires |psoAvg| == |ga|
    ensures |Ratios(psoAvg, ga)| == |Positions(ga)|
    ensures forall k :: 0 <= k < |Positions(ga)| ==>
              Positions(ga)[k] < |ga| && ga[Positions(ga)[k]].Some? &&
              Ratios(psoAvg, ga)[k] == Divide(psoAvg[Positions(ga)[k]], ga[Positions(ga)[k]].value)
  {
    PositionsAreThePresentOnes(ga);
    if ga != [] {
      var n := |ga| - 1;
      RatiosAtPositions(psoAvg[..n], ga[..n]);
      PositionsAreThePresentOnes(ga[..n]);
    }
  }

  /** The tick labels: str(i + 1) for each present position i. */
  function TickLabels(ga: seq<Option<real>>): seq<string> {
    if ga == [] then []
    else
      var n := |ga| - 1;
      TickLabels(ga[..n]) + (if ga[n].Some? then [NatToString(n + 1)] else [])
  }

  /** Tick k names, counting from one, the position of bar k. */
  lemma {:induction false} TicksNamePositions(ga: seq<Option<real>>)
    ensures |TickLabels(ga)| == |Positions(ga)|
    ensures forall k :: 0 <= k < |Positions(ga)| ==>
              IsNumeral(TickLabels(ga)[k]) && Num(TickLabels(ga)[k]) == Positions(ga)[k] + 1
  {
    if ga != [] {
      var n := |ga| - 1;
      TicksNamePositions(ga[..n]);
    }
  }

  // ---------------------------------------------------------------------
  // Task-count chart (lines 127-130)
  // ---------------------------------------------------------------------

  /** i is the first index at which xs holds the value xs[i]. */
  predicate IsFirstOccurrence(xs: seq<int>, i: nat) {
    i < |xs| && xs[i] !in xs[..i]
  }

  /** Some index of idx points at the value v in xs. */
  predicate Covers(xs: seq<int>, idx: seq<nat>, v: int) {
    exists k :: 0 <= k < |idx| && idx[k] < |xs| && xs[idx[k]] == v
  }

  /** The first-occurrence index of every distinct value, in index order. */
  function FirstOccurrences(xs: seq<int>): seq<nat> {
    if xs == [] then []
    else
      var n := |xs| - 1;
      FirstOccurrences(xs[..n]) + (if xs[n] in xs[..n] then [] else [n])
  }

  lemma {:induction false} FirstOccurrencesSpec(xs: seq<int>)
    ensures StrictlyIncreasing(FirstOccurrences(xs))
    ensures forall k :: 0 <= k < |FirstOccurrences(xs)| ==> IsFirstOccurrence(xs, FirstOccurrences(xs)[k])
    ensures forall i :: 0 <= i < |xs| ==> Covers(xs, FirstOccurrences(xs), xs[i])
  {
    if xs != [] {
      var n := |xs| - 1;
      var pre := xs[..n];
      var fo := FirstOccurrences(xs);
      var foPre := FirstOccurrences(pre);
      FirstOccurrencesSpec(pre);
      var last: seq<nat> := if xs[n] in pre then [] else [n];
      assert fo == foPre + last;
      forall k | 0 <= k < |fo|
        ensures IsFirstOccurrence(xs, fo[k])
      {
        if k < |foPre| {
          assert fo[k] == foPre[k];
          assert xs[..foPre[k]] == pre[..foPre[k]];
        } else {
          assert fo[k] == n;
        }
      }
      forall i | 0 <= i < |xs|
        ensures Covers(xs, fo, xs[i])
      {
        var v := if i < n then pre[i] else xs[n];
        if i < n || xs[n] in pre {
          var j :| 0 <= j < n && pre[j] == v;
          assert Covers(pre, foPre, pre[j]);
          var k :| 0 <= k < |foPre| && foPre[k] < n && pre[foPre[k]] == pre[j];
          assert fo[k] == foPre[k];
        } else {
          assert fo[|fo| - 1] == n;
        }
      }
    }
  }

  /** Two first occurrences of the same value are the same index. */
  lemma FirstOccurrenceUnique(xs: seq<int>, i: nat, j: nat)
    requires IsFirstOccurrence(xs, i) && IsFirstOccurrence(xs, j)
    requires xs[i] == xs[j]
    ensures i == j
  {
    if i < j {
      InPrefix(xs, i, j);
      assert false;
    } else if j < i {
      InPrefix(xs, j, i);
      assert false;
    }
  }

  lemma InPrefix(xs: seq<int>, i: nat, j: nat)
    requires i < j <= |xs|
    ensures xs[i] in xs[..j]
  {
    assert xs[..j][i] == xs[i];
  }

  /** A strictly increasing sequence holds each value at most once. */
  lemma {:induction false} IncreasingHasNoRepeats(s: seq<nat>, x: nat)
    requires StrictlyIncreasing(s)
    ensures multiset(s)[x] <= 1
  {
    if s != [] {
      var n := |s| - 1;
      var pre := s[..n];
      assert s == pre + [s[n]];
      IncreasingHasNoRepeats(pre, x);
      if x == s[n] {
        assert x !in pre by {
          forall a | 0 <= a < n
            ensures pre[a] != x
          {
            assert s[a] < s[n];
          }
        }
      }
    }
  }

  /** A value found at two different positions occurs at least twice. */
  lemma Repeated(s: seq<nat>, a: nat, b: nat)
    requires a < b < |s| && s[a] == s[b]
    ensures multiset(s)[s[a]] >= 2
  {
    assert s == s[..b] + [s[b]] + s[b + 1..];
    assert s[..b][a] == s[a];
  }

  /** The task count at an index; the sort key np.unique orders by. */
  function ValueAt(xs: seq<int>): nat -> int {
    (i: nat) => if i < |xs| then xs[i] else 0
  }

  /** np.unique(xs, return_index=True)[1]: the first-occurrence indices,
      ordered by the value they hold. */
  function UniqueIndices(xs: seq<int>): seq<nat> {
    Sort<nat>(FirstOccurrences(xs), ValueAt(xs))
  }

  /** Every unique index is the first occurrence of its value. */
  lemma UniqueIndicesAreFirst(xs: seq<int>)
    ensures forall k :: 0 <= k < |UniqueIndices(xs)| ==> IsFirstOccurrence(xs, UniqueIndices(xs)[k])
  {
    var fo := FirstOccurrences(xs);
    var r := UniqueIndices(xs);
    FirstOccurrencesSpec(xs);
    SortIsStableSort<nat>(fo, ValueAt(xs));
    forall k | 0 <= k < |r|
      ensures IsFirstOccurrence(xs, r[k])
    {
      assert r[k] in multiset(fo);
    }
  }

  /** The values at the unique indices rise strictly, so each distinct value
      appears once. */
  lemma UniqueIndicesAscend(xs: seq<int>)
    ensures forall a, b :: 0 <= a < b < |UniqueIndices(xs)| ==>
              UniqueIndices(xs)[a] < |xs| && UniqueIndices(xs)[b] < |xs| &&
              xs[UniqueIndices(xs)[a]] < xs[UniqueIndices(xs)[b]]
  {
    var fo := FirstOccurrences(xs);
    var r := UniqueIndices(xs);
    FirstOccurrencesSpec(xs);
    UniqueIndicesAreFirst(xs);
    SortIsStableSort<nat>(fo, ValueAt(xs));
    forall a, b | 0 <= a < b < |r|
      ensures xs[r[a]] < xs[r[b]]
    {
      assert ValueAt(xs)(r[a]) <= ValueAt(xs)(r[b]);
      if xs[r[a]] == xs[r[b]] {
        FirstOccurrenceUnique(xs, r[a], r[b]);
        Repeated(r, a, b);
        IncreasingHasNoRepeats(fo, r[a]);
        assert false;
      }
    }
  }

  /** Every value of xs is found at one of the unique indices. */
  lemma UniqueIndicesCover(xs: seq<int>)
    ensures forall i :: 0 <= i < |xs| ==> Covers(xs, UniqueIndices(xs), xs[i])
  {
    var fo := FirstOccurrences(xs);
    var r := UniqueIndices(xs);
    FirstOccurrencesSpec(xs);
    SortIsStableSort<nat>(fo, ValueAt(xs));
    forall i | 0 <= i < |xs|
      ensures Covers(xs, r, xs[i])
    {
      assert Covers(xs, fo, xs[i]);
      var j :| 0 <= j < |fo| && fo[j] < |xs| && xs[fo[j]] == xs[i];
      assert fo[j] in multiset(r);
      var k :| 0 <= k < |r| && r[k] == fo[j];
    }
  }

  /** The three curves of the task-count chart. */
  datatype TaskCurves = TaskCurves(tasks: seq<int>, pso: seq<real>, ga: seq<Option<real>>)

  /** unique_tasks, unique_pso and unique_ga: the three lists read at the
      unique indices. task_counts and pso_avg_makespan grow together, one
      entry per group with PSO runs; ga_makespan has one entry per group and
      may be longer, and is read at the same indices all the same. */
  function TaskSeries(taskCounts: seq<int>, psoAvg: seq<real>, ga: seq<Option<real>>): TaskCurves
    requires |taskCounts| == |psoAvg| <= |ga|
  {
    var idx := UniqueIndices(taskCounts);
    UniqueIndicesAreFirst(taskCounts);
    TaskCurves(
      seq(|idx|, k requires 0 <= k < |idx| => taskCounts[idx[k]]),
      seq(|idx|, k requires 0 <= k < |idx| => psoAvg[idx[k]]),
      seq(|idx|, k requires 0 <= k < |idx| => ga[idx[k]]))
  }

  /** One point per distinct task count, in ascending task count; each point
      carries the values of the first group with that task count. */
  lemma TaskSeriesSpec(taskCounts: seq<int>, psoAvg: seq<real>, ga: seq<Option<real>>)
    requires |taskCounts| == |psoAvg| <= |ga|
    ensures var c := TaskSeries(taskCounts, psoAvg, ga);
      && |c.tasks| == |c.pso| == |c.ga|
      && (forall a, b :: 0 <= a < b < |c.tasks| ==> c.tasks[a] < c.tasks[b])
      && (forall i :: 0 <= i < |taskCounts| ==> taskCounts[i] in c.tasks)
      && (forall k :: 0 <= k < |c.tasks| ==>
            exists j :: 0 <= j < |taskCounts| && IsFirstOccurrence(taskCounts, j) &&
              c.tasks[k] == taskCounts[j] && c.pso[k] == psoAvg[j] && c.ga[k] == ga[j])
  {
    var idx := UniqueIndices(taskCounts);
    var c := TaskSeries(taskCounts, psoAvg, ga);
    UniqueIndicesAreFirst(taskCounts);
    UniqueIndicesAscend(taskCounts);
    UniqueIndicesCover(taskCounts);
    forall i | 0 <= i < |taskCounts|
      ensures taskCounts[i] in c.tasks
    {
      assert Covers(taskCounts, idx, taskCounts[i]);
      var k :| 0 <= k < |idx| && idx[k] < |taskCounts| && taskCounts[idx[k]] == taskCounts[i];
      assert c.tasks[k] == taskCounts[i];
    }
    forall k | 0 <= k < |c.tasks|
      ensures exists j :: 0 <= j < |taskCounts| && IsFirstOccurrence(taskCounts, j) &&
                c.tasks[k] == taskCounts[j] && c.pso[k] == psoAvg[j] && c.ga[k] == ga[j]
    {
      var j := idx[k];
      assert IsFirstOccurrence(taskCounts, j);
    }
  }

  /** With a single group that has PSO runs, the one point of the chart takes
      its GA value from the first sorted group, whichever group the task count
      and PSO mean come from. */
  lemma SinglePsoGroupReadsFirstGa(t: int, p: real, ga: seq<Option<real>>)
    requires |ga| >= 1
    ensures TaskSeries([t], [p], ga) == TaskCurves([t], [p], [ga[0]])
  {
    assert [t][..0] == [];
    assert FirstOccurrences([t]) == [0];
    assert Sort<nat>([0], ValueAt([t])) == [0];
  }

  /** A PSO mean of 110 against a GA makespan of 90 gives one bar of 110/90,
      labelled "1". */
  lemma ExampleRatio()
    ensures Ratios([110.0], [Some(90.0)]) == [Finite(110.0 / 90.0)]
    ensures TickLabels([Some(90.0)]) == ["1"]
  {
    assert [110.0][..0] == [] && [Some(90.0)][..0] == [];
    assert NatToString(1) == "1";
  }
}
