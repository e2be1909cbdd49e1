/** The aggregation loop: one label and one GA entry per sorted group, and the
    PSO statistics and task count for each group that has PSO trials. */
module Aggregation {
  import opened Wrappers
  import opened Records
  import opened ConfigKeys
  import opened Durations
  import opened Grouping
  import opened Ordering
  import opened Statistics
  import opened Sequences
  import opened StableSort

  /** The parallel lists the script fills; NaN is None. */
  datatype Series = Series(
    configNames: seq<string>,
    psoAvgMakespan: seq<real>,
    psoMinMakespan: seq<real>,
    psoMaxMakespan: seq<real>,
    gaMakespan: seq<Option<real>>,
    psoAvgTime: seq<real>,
    psoMinTime: seq<real>,
    psoMaxTime: seq<real>,
    gaTime: seq<Option<real>>,
    taskCounts: seq<int>)

  /** Why the script stops before any chart is drawn. */
  datatype Failure =
    | UnreadableOrdinal(configuration: string)   // int() or [-1] raises in the sort key
    | MissingColon(configuration: string)        // split(':', 1)[1] raises while labelling

  function Makespans(trials: seq<Experiment>): seq<real> {
    seq(|trials|, i requires 0 <= i < |trials| => trials[i].makespan)
  }

  function Times(trials: seq<Experiment>): seq<real> {
    seq(|trials|, i requires 0 <= i < |trials| => TimeToSeconds(trials[i].computationTime))
  }

  /** ga_makespan entry: the GA record's Makespan, or NaN. A record is a
      non-empty dict, so `if values['GA']` tests only for None. */
  function GaMakespan(g: Group): Option<real> {
    match g.ga
    case Some(e) => Some(e.makespan)
    case None => None
  }

  /** ga_time entry: the GA record's parsed ComputationTime, or NaN. */
  function GaTime(g: Group): Option<real> {
    match g.ga
    case Some(e) => Some(TimeToSeconds(e.computationTime))
    case None => None
  }

  /** The groups with PSO trials, in order: those that `if values['PSO']` lets
      through. */
  function WithTrials(entries: seq<Entry>): (w: seq<Group>)
    ensures |w| <= |entries|
    ensures forall j :: 0 <= j < |w| ==> w[j].pso != []
    ensures forall i :: 0 <= i < |entries| && entries[i].1.pso != [] ==> entries[i].1 in w
    ensures forall g :: g in w ==> exists i :: 0 <= i < |entries| && entries[i].1 == g
  {
    if entries == [] then []
    else
      var g := entries[|entries| - 1].1;
      WithTrials(entries[..|entries| - 1]) + (if g.pso != [] then [g] else [])
  }

  predicate HasLabel(e: Entry) {
    Label(e.0).Some?
  }

  /** config_names entry: f"{num}: {name}". */
  function LabelOf(e: Entry): string
    requires HasLabel(e)
  {
    Label(e.0).value
  }

  /** Entry i of the label and GA lists belongs to sorted group i. */
  predicate PerGroup(names: seq<string>, gaMakespan: seq<Option<real>>, gaTime: seq<Option<real>>,
                     sorted: seq<Entry>)
    requires forall i :: 0 <= i < |sorted| ==> HasLabel(sorted[i])
  {
    && |names| == |sorted| && |gaMakespan| == |sorted| && |gaTime| == |sorted|
    && forall i :: 0 <= i < |sorted| ==>
         && names[i] == LabelOf(sorted[i])
         && gaMakespan[i] == GaMakespan(sorted[i].1)
         && gaTime[i] == GaTime(sorted[i].1)
  }

  /** Entry j of the PSO lists and of task_counts belongs to the j-th group
      with PSO trials. */
  predicate PerTrialGroup(avgMakespan: seq<real>, minMakespan: seq<real>, maxMakespan: seq<real>,
                          avgTime: seq<real>, minTime: seq<real>, maxTime: seq<real>,
                          taskCounts: seq<int>, w: seq<Group>)
    requires forall j :: 0 <= j < |w| ==> w[j].pso != []
  {
    && |avgMakespan| == |w| && |minMakespan| == |w| && |maxMakespan| == |w|
    && |avgTime| == |w| && |minTime| == |w| && |maxTime| == |w|
    && |taskCounts| == |w|
    && forall j :: 0 <= j < |w| ==>
         && avgMakespan[j] == Mean(Makespans(w[j].pso))
         && minMakespan[j] == Min(Makespans(w[j].pso))
         && maxMakespan[j] == Max(Makespans(w[j].pso))
         && avgTime[j] == Mean(Times(w[j].pso))
         && minTime[j] == Min(Times(w[j].pso))
         && maxTime[j] == Max(Times(w[j].pso))
         && taskCounts[j] == w[j].pso[0].taskCount
  }

  /** What the loop leaves in the lists for the sorted groups. */
  predicate Describes(out: Series, sorted: seq<Entry>)
    requires forall i :: 0 <= i < |sorted| ==> HasLabel(sorted[i])
  {
    && PerGroup(out.configNames, out.gaMakespan, out.gaTime, sorted)
    && PerTrialGroup(out.psoAvgMakespan, out.psoMinMakespan, out.psoMaxMakespan,
                     out.psoAvgTime, out.psoMinTime, out.psoMaxTime, out.taskCounts,
                     WithTrials(sorted))
  }

  lemma PerGroupStep(names: seq<string>, gaMakespan: seq<Option<real>>, gaTime: seq<Option<real>>,
                     pre: seq<Entry>, e: Entry)
    requires forall i :: 0 <= i < |pre| ==> HasLabel(pre[i])
    requires HasLabel(e)
    requires PerGroup(names, gaMakespan, gaTime, pre)
    ensures forall i :: 0 <= i < |pre + [e]| ==> HasLabel((pre + [e])[i])
    ensures PerGroup(names + [LabelOf(e)], gaMakespan + [GaMakespan(e.1)], gaTime + [GaTime(e.1)], pre + [e])
  {
  }

  lemma PerTrialGroupStep(avgMakespan: seq<real>, minMakespan: seq<real>, maxMakespan: seq<real>,
                          avgTime: seq<real>, minTime: seq<real>, maxTime: seq<real>,
                          taskCounts: seq<int>, w: seq<Group>, g: Group)
    requires forall j :: 0 <= j < |w| ==> w[j].pso != []
    requires g.pso != []
    requires PerTrialGroup(avgMakespan, minMakespan, maxMakespan, avgTime, minTime, maxTime, taskCounts, w)
    ensures forall j :: 0 <= j < |w + [g]| ==> (w + [g])[j].pso != []
    ensures PerTrialGroup(avgMakespan + [Mean(Makespans(g.pso))], minMakespan + [Min(Makespans(g.pso))],
                          maxMakespan + [Max(Makespans(g.pso))], avgTime + [Mean(Times(g.pso))],
                          minTime + [Min(Times(g.pso))], maxTime + [Max(Times(g.pso))],
                          taskCounts + [g.pso[0].taskCount], w + [g])
  {
  }

  lemma WithTrialsStep(pre: seq<Entry>, e: Entry)
    ensures e.1.pso != [] ==> WithTrials(pre + [e]) == WithTrials(pre) + [e.1]
    ensures e.1.pso == [] ==> WithTrials(pre + [e]) == WithTrials(pre)
  {
    assert (pre + [e])[..|pre|] == pre;
    assert WithTrials(pre) + [] == WithTrials(pre);
  }

  /** A single group is kept, once, exactly when it has PSO runs. */
  lemma WithTrialsOne(e: Entry)
    ensures WithTrials([e]) == if e.1.pso != [] then [e.1] else []
  {
    WithTrialsStep([], e);
    assert [] + [e] == [e];
  }

  /** The kept groups of a concatenation are those of each part, in order:
      the filter keeps the input order and keeps no group twice. */
  lemma {:induction false} WithTrialsAppend(a: seq<Entry>, b: seq<Entry>)
    ensures WithTrials(a + b) == WithTrials(a) + WithTrials(b)
  {
    if b == [] {
      assert a + b == a;
    } else {
      var b', e := b[..|b| - 1], b[|b| - 1];
      assert b == b' + [e];
      assert a + b == (a + b') + [e];
      WithTrialsAppend(a, b');
      WithTrialsStep(a + b', e);
      WithTrialsStep(b', e);
    }
  }

  /** One pass of the loop body: the label and GA entries for `e`, and its PSO
      statistics and task count when it has PSO trials. */
  function AddGroup(acc: Series, e: Entry): (r: Series)
    requires HasLabel(e)
    ensures |r.configNames| == |acc.configNames| + 1
    ensures |r.psoAvgMakespan| == |acc.psoAvgMakespan| + (if e.1.pso != [] then 1 else 0)
  {
    var values := e.1;
    var named := acc.(configNames := acc.configNames + [LabelOf(e)]);
    var withPso :=
      if values.pso != [] then
        var makespans := Makespans(values.pso);
        var times := Times(values.pso);
        named.(psoAvgMakespan := named.psoAvgMakespan + [Mean(makespans)],
               psoMinMakespan := named.psoMinMakespan + [Min(makespans)],
               psoMaxMakespan := named.psoMaxMakespan + [Max(makespans)],
               psoAvgTime := named.psoAvgTime + [Mean(times)],
               psoMinTime := named.psoMinTime + [Min(times)],
               psoMaxTime := named.psoMaxTime + [Max(times)],
               taskCounts := named.taskCounts + [values.pso[0].taskCount])
      else named;
    withPso.(gaMakespan := withPso.gaMakespan + [GaMakespan(values)],
             gaTime := withPso.gaTime + [GaTime(values)])
  }

  lemma AddGroupFields(acc: Series, e: Entry)
    requires HasLabel(e)
    ensures var r := AddGroup(acc, e);
      && r.configNames == acc.configNames + [LabelOf(e)]
      && r.gaMakespan == acc.gaMakespan + [GaMakespan(e.1)]
      && r.gaTime == acc.gaTime + [GaTime(e.1)]
      && (e.1.pso == [] ==>
            && r.psoAvgMakespan == acc.psoAvgMakespan && r.psoMinMakespan == acc.psoMinMakespan
            && r.psoMaxMakespan == acc.psoMaxMakespan && r.psoAvgTime == acc.psoAvgTime
            && r.psoMinTime == acc.psoMinTime && r.psoMaxTime == acc.psoMaxTime
            && r.taskCounts == acc.taskCounts)
      && (e.1.pso != [] ==>
            && r.psoAvgMakespan == acc.psoAvgMakespan + [Mean(Makespans(e.1.pso))]
            && r.psoMinMakespan == acc.psoMinMakespan + [Min(Makespans(e.1.pso))]
            && r.psoMaxMakespan == acc.psoMaxMakespan + [Max(Makespans(e.1.pso))]
            && r.psoAvgTime == acc.psoAvgTime + [Mean(Times(e.1.pso))]
            && r.psoMinTime == acc.psoMinTime + [Min(Times(e.1.pso))]
            && r.psoMaxTime == acc.psoMaxTime + [Max(Times(e.1.pso))]
            && r.taskCounts == acc.taskCounts + [e.1.pso[0].taskCount])
  {
  }

  /** One pass of the loop keeps the lists in step with the groups seen so
      far: after `e` they describe `pre + [e]`. */
  lemma AddGroupDescribes(acc: Series, pre: seq<Entry>, e: Entry)
    requires forall i :: 0 <= i < |pre| ==> HasLabel(pre[i])
    requires HasLabel(e)
    requires Describes(acc, pre)
    ensures forall i :: 0 <= i < |pre + [e]| ==> HasLabel((pre + [e])[i])
    ensures Describes(AddGroup(acc, e), pre + [e])
  {
    AddGroupFields(acc, e);
    WithTrialsStep(pre, e);
    PerGroupStep(acc.configNames, acc.gaMakespan, acc.gaTime, pre, e);
    if e.1.pso != [] {
      PerTrialGroupStep(acc.psoAvgMakespan, acc.psoMinMakespan, acc.psoMaxMakespan,
                        acc.psoAvgTime, acc.psoMinTime, acc.psoMaxTime, acc.taskCounts,
                        WithTrials(pre), e.1);
    }
  }

  const NoSeries := Series([], [], [], [], [], [], [], [], [], [])

  /** The lists after the loop has run over `sorted`. */
  function Aggregated(sorted: seq<Entry>): Series
    requires forall i :: 0 <= i < |sorted| ==> HasLabel(sorted[i])
  {
    if sorted == [] then NoSeries
    else AddGroup(Aggregated(sorted[..|sorted| - 1]), sorted[|sorted| - 1])
  }

  /** Whatever the loop leaves behind lines up with the sorted groups as
      Describes says. */
  lemma {:induction false} AggregatedDescribes(sorted: seq<Entry>)
    requires forall i :: 0 <= i < |sorted| ==> HasLabel(sorted[i])
    ensures Describes(Aggregated(sorted), sorted)
  {
    if sorted != [] {
      var pre := sorted[..|sorted| - 1];
      var e := sorted[|sorted| - 1];
      LastStep(sorted);
      AggregatedDescribes(pre);
      AddGroupDescribes(Aggregated(pre), pre, e);
    }
  }

  /** Every PSO minimum is at most its mean and every mean at most its
      maximum. */
  lemma DescribedBounds(out: Series, sorted: seq<Entry>)
    requires forall i :: 0 <= i < |sorted| ==> HasLabel(sorted[i])
    requires Describes(out, sorted)
    ensures forall j :: 0 <= j < |out.psoAvgMakespan| ==>
              out.psoMinMakespan[j] <= out.psoAvgMakespan[j] <= out.psoMaxMakespan[j]
    ensures forall j :: 0 <= j < |out.psoAvgTime| ==>
              out.psoMinTime[j] <= out.psoAvgTime[j] <= out.psoMaxTime[j]
  {
    var w := WithTrials(sorted);
    forall j | 0 <= j < |w|
      ensures out.psoMinMakespan[j] <= out.psoAvgMakespan[j] <= out.psoMaxMakespan[j]
      ensures out.psoMinTime[j] <= out.psoAvgTime[j] <= out.psoMaxTime[j]
    {
      var times := Times(w[j].pso);
      MeanWithinRange(Makespans(w[j].pso));
      MeanWithinRange(times);
    }
  }

  /** Lines 52-78 of the script: the loop that fills the parallel lists. */
  method Aggregate(sorted: seq<Entry>) returns (out: Series)
    requires forall i :: 0 <= i < |sorted| ==> HasLabel(sorted[i])
    ensures out == Aggregated(sorted)
    ensures Describes(out, sorted)
  {
    var configNames: seq<string> := [];
    var psoAvgMakespan, psoMinMakespan, psoMaxMakespan: seq<real> := [], [], [];
    var gaMakespan: seq<Option<real>> := [];
    var psoAvgTime, psoMinTime, psoMaxTime: seq<real> := [], [], [];
    var gaTime: seq<Option<real>> := [];
    var taskCounts: seq<int> := [];
    var i := 0;
    while i < |sorted|
      invariant 0 <= i <= |sorted|
      invariant Series(configNames, psoAvgMakespan, psoMinMakespan, psoMaxMakespan, gaMakespan,
                       psoAvgTime, psoMinTime, psoMaxTime, gaTime, taskCounts)
                == Aggregated(sorted[..i])
    {
      var values := sorted[i].1;
      PrefixStep(sorted, i);
      assert sorted[..i + 1][..i] == sorted[..i];
      configNames := configNames + [LabelOf(sorted[i])];
      if values.pso != [] {
        var makespans := Makespans(values.pso);
        var times := Times(values.pso);
        psoAvgMakespan := psoAvgMakespan + [Mean(makespans)];
        psoMinMakespan := psoMinMakespan + [Min(makespans)];
        psoMaxMakespan := psoMaxMakespan + [Max(makespans)];
        psoAvgTime := psoAvgTime + [Mean(times)];
        psoMinTime := psoMinTime + [Min(times)];
        psoMaxTime := psoMaxTime + [Max(times)];
        taskCounts := taskCounts + [values.pso[0].taskCount];
      }
      // `if values['GA']` picks the record or NaN; see GaMakespan and GaTime.
      gaMakespan := gaMakespan + [GaMakespan(values)];
      gaTime := gaTime + [GaTime(values)];
      i := i + 1;
    }
    assert sorted[..i] == sorted;
    out := Series(configNames, psoAvgMakespan, psoMinMakespan, psoMaxMakespan, gaMakespan,
                  psoAvgTime, psoMinTime, psoMaxTime, gaTime, taskCounts);
    AggregatedDescribes(sorted);
  }

  /** Lines 13-78 of the script: group, sort, aggregate. The script stops at
      the first configuration whose ordinal cannot be read, otherwise at the
      first sorted configuration that has no ':'. */
  method Analyze(experiments: seq<Experiment>) returns (r: Result<Series, Failure>)
    ensures match SortByOrdinal(Grouped(experiments))
            case Failure(c) => r == Failure(UnreadableOrdinal(c))
            case Success(sorted) =>
              match FirstFailing(sorted, HasLabel)
              case Some(i) => r == Failure(MissingColon(sorted[i].0))
              case None => r.Success? && Describes(r.value, sorted)
  {
    var items := GroupByConfiguration(experiments);
    match SortByOrdinal(items)
    case Failure(c) =>
      r := Failure(UnreadableOrdinal(c));
    case Success(sorted) =>
      match FirstFailing(sorted, HasLabel)
      case Some(i) =>
        r := Failure(MissingColon(sorted[i].0));
      case None =>
        var out := Aggregate(sorted);
        r := Success(out);
  }

  /** The PSO lists line up with the per-group lists exactly when every group
      has PSO trials. */
  lemma {:induction false} WithTrialsCoversAll(entries: seq<Entry>)
    ensures |WithTrials(entries)| == |entries| <==> forall i :: 0 <= i < |entries| ==> entries[i].1.pso != []
  {
    if entries != [] {
      var pre := entries[..|entries| - 1];
      WithTrialsCoversAll(pre);
      assert forall i :: 0 <= i < |pre| ==> pre[i] == entries[i];
    }
  }

  lemma AlignedIffAllHaveTrials(out: Series, sorted: seq<Entry>)
    requires forall i :: 0 <= i < |sorted| ==> HasLabel(sorted[i])
    requires Describes(out, sorted)
    ensures |out.psoAvgMakespan| == |out.gaMakespan| <==> forall i :: 0 <= i < |sorted| ==> sorted[i].1.pso != []
  {
    WithTrialsCoversAll(sorted);
  }

  /** The makespan lists after a single group with PSO runs. */
  lemma AggregatedOneGroup(e: Entry)
    requires HasLabel(e) && e.1.pso != []
    ensures var out := Aggregated([e]);
            && out.configNames == [LabelOf(e)]
            && out.psoAvgMakespan == [Mean(Makespans(e.1.pso))]
            && out.psoMinMakespan == [Min(Makespans(e.1.pso))]
            && out.psoMaxMakespan == [Max(Makespans(e.1.pso))]
            && out.gaMakespan == [GaMakespan(e.1)]
            && out.taskCounts == [e.1.pso[0].taskCount]
  {
    assert [e][..0] == [];
    AddGroupFields(NoSeries, e);
  }

  lemma MakespansOfTwo(a: Experiment, b: Experiment)
    ensures Makespans([a, b]) == [a.makespan, b.makespan]
  {
  }

  /** A configuration with two PSO runs of makespans 100 and 120, the first
      on 5 tasks, and a GA run of makespan 90 gives the configuration's label,
      a PSO mean of 110 with minimum 100 and maximum 120, a GA makespan of 90
      and a task count of 5. */
  lemma ExampleAggregated(config: string, pso1: Experiment, pso2: Experiment, ga: Experiment)
    requires Label(config).Some?
    requires pso1.makespan == 100.0 && pso2.makespan == 120.0 && ga.makespan == 90.0
    requires pso1.taskCount == 5
    ensures var out := Aggregated([(config, Group([pso1, pso2], Some(ga)))]);
            && out.configNames == [Label(config).value]
            && out.psoAvgMakespan == [110.0]
            && out.psoMinMakespan == [100.0]
            && out.psoMaxMakespan == [120.0]
            && out.gaMakespan == [Some(90.0)]
            && out.taskCounts == [5]
  {
    AggregatedOneGroup((config, Group([pso1, pso2], Some(ga))));
    MakespansOfTwo(pso1, pso2);
    ExampleStatistics();
  }

  /** The whole chain once: the three runs of the example above, given as a
      log, are grouped into one group that the sort leaves in place, every
      configuration is labelled, and the loop produces the example's lists. */
  lemma ExamplePipeline(config: string, pso1: Experiment, pso2: Experiment, ga: Experiment)
    requires Ordinal(config).Some? && Label(config).Some?
    requires pso1.configuration == config && pso2.configuration == config && ga.configuration == config
    requires pso1.algorithmType == Pso && pso2.algorithmType == Pso && ga.algorithmType == Genetic
    requires pso1.makespan == 100.0 && pso2.makespan == 120.0 && ga.makespan == 90.0
    requires pso1.taskCount == 5
    ensures var sorted := [(config, Group([pso1, pso2], Some(ga)))];
            && SortByOrdinal(Grouped([pso1, pso2, ga])) == Success(sorted)
            && FirstFailing(sorted, HasLabel) == None
            && var out := Aggregated(sorted);
            && out.psoAvgMakespan == [110.0] && out.psoMinMakespan == [100.0]
            && out.psoMaxMakespan == [120.0] && out.gaMakespan == [Some(90.0)]
            && out.taskCounts == [5]
  {
    var e := (config, Group([pso1, pso2], Some(ga)));
    ExampleGrouped(pso1, pso2, ga);
    assert Sort([e], SortKey) == [e] by {
      assert [e][1..] == [];
    }
    ExampleAggregated(config, pso1, pso2, ga);
  }
}
