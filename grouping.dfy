/** The grouping loop: one dictionary entry per distinct Configuration, in order
    of first appearance, holding that configuration's PSO trials and its first
    Genetic run. */
module Grouping {
  import opened Wrappers
  import opened Records

  /** configs[config]: {'PSO': trials, 'GA': first genetic run or None}. */
  datatype Group = Group(pso: seq<Experiment>, ga: Option<Experiment>)

  /** One item of configs.items(): the raw Configuration string and its group. */
  type Entry = (string, Group)

  const Pso: string := "Pso"
  const Genetic: string := "Genetic"

  predicate IsPsoOf(e: Experiment, c: string) {
    e.algorithmType == Pso && e.configuration == c
  }

  predicate IsGeneticOf(e: Experiment, c: string) {
    e.algorithmType == Genetic && e.configuration == c
  }

  predicate Distinct<T(==)>(s: seq<T>) {
    forall i, j :: 0 <= i < j < |s| ==> s[i] != s[j]
  }

  // ---------------------------------------------------------------------------
  // Specification of the dictionary the loop builds

  /** The keys of configs in insertion order: every Configuration of the log,
      whatever its AlgorithmType, once, at its first appearance. */
  function Configurations(es: seq<Experiment>): seq<string>
  {
    if es == [] then []
    else
      var keys := Configurations(es[..|es| - 1]);
      var c := es[|es| - 1].configuration;
      if c in keys then keys else keys + [c]
  }

  /** configs[c]['PSO']: the PSO runs of configuration c in input order. */
  function PsoTrials(es: seq<Experiment>, c: string): seq<Experiment>
  {
    if es == [] then []
    else
      var last := es[|es| - 1];
      PsoTrials(es[..|es| - 1], c) + (if IsPsoOf(last, c) then [last] else [])
  }

  /** configs[c]['GA']: the slot is written only while it is empty, so it holds
      the first Genetic run of configuration c, if any. */
  function FirstGenetic(es: seq<Experiment>, c: string): Option<Experiment>
  {
    if es == [] then None
    else
      var last := es[|es| - 1];
      var ga := FirstGenetic(es[..|es| - 1], c);
      if ga.Some? then ga
      else if IsGeneticOf(last, c) then Some(last)
      else None
  }

  function GroupOf(es: seq<Experiment>, c: string): Group {
    Group(PsoTrials(es, c), FirstGenetic(es, c))
  }

  /** configs.items() after the loop. */
  function Grouped(es: seq<Experiment>): seq<Entry> {
    var keys := Configurations(es);
    seq(|keys|, i requires 0 <= i < |keys| => (keys[i], GroupOf(es, keys[i])))
  }

  // ---------------------------------------------------------------------------
  // The loop

  /** Lines 13-22 of the script: insert-if-absent, append the PSO runs, fill
      the GA slot only while it is empty. The dictionary is a map plus the
      order in which its keys were inserted. */
  method GroupByConfiguration(experiments: seq<Experiment>) returns (items: seq<Entry>)
    ensures items == Grouped(experiments)
  {
    var order: seq<string> := [];
    var configs: map<string, Group> := map[];
    var n := 0;
    while n < |experiments|
      invariant 0 <= n <= |experiments|
      invariant order == Configurations(experiments[..n])
      invariant forall c :: c in configs <==> c in order
      invariant forall c :: c in configs ==> configs[c] == GroupOf(experiments[..n], c)
    {
      var exp := experiments[n];
      var config := exp.configuration;
      ghost var seen := experiments[..n];
      ghost var before := configs;
      assert experiments[..n + 1] == seen + [exp];
      ConfigurationsStep(seen, exp);
      if config !in configs {
        AbsentConfiguration(seen, config);
        configs := configs[config := Group([], None)];
        order := order + [config];
      }
      var g := configs[config];
      assert g == GroupOf(seen, config);
      if exp.algorithmType == Pso {
        configs := configs[config := g.(pso := g.pso + [exp])];
      } else if exp.algorithmType == Genetic && g.ga.None? {
        configs := configs[config := g.(ga := Some(exp))];
      }
      forall c | c in configs
        ensures configs[c] == GroupOf(seen + [exp], c)
      {
        GroupStep(seen, exp, c);
      }
      n := n + 1;
    }
    assert experiments[..n] == experiments;
    items := seq(|order|, i requires 0 <= i < |order| => (order[i], configs[order[i]]));
  }

  /** One record appends its configuration to the keys at its first sight. */
  lemma ConfigurationsStep(seen: seq<Experiment>, exp: Experiment)
    ensures Configurations(seen + [exp])
            == if exp.configuration in Configurations(seen) then Configurations(seen)
               else Configurations(seen) + [exp.configuration]
  {
    assert (seen + [exp])[..|seen|] == seen;
  }

  /** One record changes only its own configuration's group: a PSO run is
      appended, a Genetic run fills an empty GA slot, anything else is ignored. */
  lemma GroupStep(seen: seq<Experiment>, exp: Experiment, c: string)
    ensures var g := GroupOf(seen, c);
            GroupOf(seen + [exp], c)
            == if exp.configuration != c then g
               else if exp.algorithmType == Pso then g.(pso := g.pso + [exp])
               else if exp.algorithmType == Genetic && g.ga.None? then g.(ga := Some(exp))
               else g
  {
    assert (seen + [exp])[..|seen|] == seen;
  }

  // ---------------------------------------------------------------------------
  // Properties

  /** Every Configuration of the log is a key, whatever its AlgorithmType,
      every key is the Configuration of some record, and no key repeats. */
  lemma {:induction false} ConfigurationsAreKeys(es: seq<Experiment>)
    ensures forall i :: 0 <= i < |es| ==> es[i].configuration in Configurations(es)
    ensures forall c :: c in Configurations(es) <==>
              exists i :: 0 <= i < |es| && es[i].configuration == c
    ensures Distinct(Configurations(es))
  {
    if es != [] {
      var pre := es[..|es| - 1];
      ConfigurationsAreKeys(pre);
      assert forall i :: 0 <= i < |pre| ==> pre[i] == es[i];
    }
  }

  /** The PSO list of c holds exactly the records that are PSO runs of c. */
  lemma {:induction false} PsoTrialsMembers(es: seq<Experiment>, c: string)
    ensures forall e :: e in PsoTrials(es, c) <==> e in es && IsPsoOf(e, c)
  {
    if es != [] {
      var pre, last := es[..|es| - 1], es[|es| - 1];
      assert es == pre + [last];
      PsoTrialsMembers(pre, c);
    }
  }

  /** The GA slot of c is empty exactly when c has no Genetic run, and
      otherwise holds the first one in input order. */
  lemma {:induction false} FirstGeneticIsFirst(es: seq<Experiment>, c: string)
    ensures FirstGenetic(es, c).None? <==> forall i :: 0 <= i < |es| ==> !IsGeneticOf(es[i], c)
    ensures FirstGenetic(es, c).Some? ==>
              exists i :: 0 <= i < |es| && es[i] == FirstGenetic(es, c).value && IsGeneticOf(es[i], c)
                          && forall j :: 0 <= j < i ==> !IsGeneticOf(es[j], c)
  {
    if es != [] {
      var pre := es[..|es| - 1];
      FirstGeneticIsFirst(pre, c);
      assert forall i :: 0 <= i < |pre| ==> pre[i] == es[i];
    }
  }

  /** A configuration that has not appeared yet has an empty group. */
  lemma AbsentConfiguration(es: seq<Experiment>, c: string)
    requires c !in Configurations(es)
    ensures GroupOf(es, c) == Group([], None)
  {
    ConfigurationsAreKeys(es);
    PsoTrialsMembers(es, c);
    FirstGeneticIsFirst(es, c);
  }

  /** The PSO list of a log made of two parts is that of the first part
      followed by that of the second: trials keep input order. */
  lemma {:induction false} PsoTrialsAppend(a: seq<Experiment>, b: seq<Experiment>, c: string)
    ensures PsoTrials(a + b, c) == PsoTrials(a, c) + PsoTrials(b, c)
  {
    if b == [] {
      assert a + b == a;
    } else {
      var b' := b[..|b| - 1];
      assert (a + b)[..|a + b| - 1] == a + b';
      PsoTrialsAppend(a, b', c);
    }
  }

  /** A filled GA slot is never overwritten by later records. */
  lemma {:induction false} GeneticNeverOverwritten(a: seq<Experiment>, b: seq<Experiment>, c: string)
    requires FirstGenetic(a, c).Some?
    ensures FirstGenetic(a + b, c) == FirstGenetic(a, c)
  {
    if b == [] {
      assert a + b == a;
    } else {
      var b' := b[..|b| - 1];
      assert (a + b)[..|a + b| - 1] == a + b';
      GeneticNeverOverwritten(a, b', c);
    }
  }

  /** The index of the first record of configuration c. */
  function FirstIndex(es: seq<Experiment>, c: string): (i: nat)
    requires c in Configurations(es)
    ensures i < |es| && es[i].configuration == c
    ensures forall j :: 0 <= j < i ==> es[j].configuration != c
  {
    if es[0].configuration == c then 0
    else
      FirstIndexTail(es, c);
      1 + FirstIndex(es[1..], c)
  }

  lemma FirstIndexTail(es: seq<Experiment>, c: string)
    requires c in Configurations(es) && es != [] && es[0].configuration != c
    ensures c in Configurations(es[1..])
  {
    ConfigurationsAreKeys(es);
    ConfigurationsAreKeys(es[1..]);
    var i :| 0 <= i < |es| && es[i].configuration == c;
    assert es[1..][i - 1] == es[i];
  }

  /** Later records do not move the first index of a configuration already seen. */
  lemma FirstIndexStep(pre: seq<Experiment>, e: Experiment, k: string)
    requires k in Configurations(pre)
    ensures k in Configurations(pre + [e])
    ensures FirstIndex(pre + [e], k) == FirstIndex(pre, k)
  {
    var es := pre + [e];
    ConfigurationsStep(pre, e);
    var b := FirstIndex(pre, k);
    assert es[b] == pre[b];
  }

  /** A configuration first seen in the last record has that record's index. */
  lemma FirstIndexNew(pre: seq<Experiment>, e: Experiment)
    requires e.configuration !in Configurations(pre)
    ensures e.configuration in Configurations(pre + [e])
    ensures FirstIndex(pre + [e], e.configuration) == |pre|
  {
    var es := pre + [e];
    ConfigurationsStep(pre, e);
    ConfigurationsAreKeys(pre);
    forall j | 0 <= j < |pre|
      ensures es[j].configuration != e.configuration
    {
      assert es[j] == pre[j];
    }
  }

  /** Keys are in order of first appearance. */
  lemma {:induction false} FirstAppearanceOrder(es: seq<Experiment>)
    ensures forall p, q :: 0 <= p < q < |Configurations(es)| ==>
              FirstIndex(es, Configurations(es)[p]) < FirstIndex(es, Configurations(es)[q])
  {
    if es != [] {
      var pre, e := es[..|es| - 1], es[|es| - 1];
      assert es == pre + [e];
      var keys, preKeys := Configurations(es), Configurations(pre);
      ConfigurationsStep(pre, e);
      FirstAppearanceOrder(pre);
      forall p, q | 0 <= p < q < |keys|
        ensures FirstIndex(es, keys[p]) < FirstIndex(es, keys[q])
      {
        assert keys[p] == preKeys[p];
        FirstIndexStep(pre, e, keys[p]);
        if q == |preKeys| {
          FirstIndexNew(pre, e);
        } else {
          assert keys[q] == preKeys[q];
          FirstIndexStep(pre, e, keys[q]);
        }
      }
    }
  }

  /** Two PSO runs and then a Genetic run of one configuration make one
      group holding both PSO runs, in order, and the Genetic run. */
  lemma ExampleGrouped(p1: Experiment, p2: Experiment, g: Experiment)
    requires p1.configuration == p2.configuration == g.configuration
    requires p1.algorithmType == Pso && p2.algorithmType == Pso && g.algorithmType == Genetic
    ensures Grouped([p1, p2, g]) == [(p1.configuration, Group([p1, p2], Some(g)))]
  {
    var c := p1.configuration;
    var es := [p1, p2, g];
    var one, two := [p1], [p1, p2];
    assert es[..2] == two && two[..1] == one && one[..0] == [];
    assert Configurations(one) == [c] && PsoTrials(one, c) == [p1] && FirstGenetic(one, c) == None;
    assert Configurations(two) == [c] && PsoTrials(two, c) == [p1, p2] && FirstGenetic(two, c) == None;
    assert Configurations(es) == [c] && PsoTrials(es, c) == [p1, p2] && FirstGenetic(es, c) == Some(g);
  }
}
