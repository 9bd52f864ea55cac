/** The dependency graph of an authored pipeline, src/pipeline_v3.rs: one pass over the stage
    list that carries every stage's ancestors along. */
module PipelineGraph {
  import opened Distinctness
  import opened RunExecution
  import opened Wrappers

  /** A stage with the artifacts on its input and output ports. */
  datatype GraphStage = GraphStage(stage: PlanStage, consumes: seq<string>, produces: seq<string>)

  function PlanOf(stages: seq<GraphStage>): seq<PlanStage> {
    seq(|stages|, i requires 0 <= i < |stages| => stages[i].stage)
  }

  /** Stage `i` depends on stage `j`, directly or by way of others. */
  ghost predicate Reaches(plan: seq<PlanStage>, i: nat, j: nat)
    requires i < |plan| && j < |plan|
    decreases i
  {
    exists m :: 0 <= m < i && Via(plan, i, m, j)
  }

  ghost predicate Via(plan: seq<PlanStage>, i: nat, m: nat, j: nat)
    requires m < i < |plan| && j < |plan|
    decreases i, 0
  {
    plan[m].id in plan[i].dependsOn && (m == j || Reaches(plan, m, j))
  }

  lemma ReachesVia(plan: seq<PlanStage>, i: nat, j: nat) returns (m: nat)
    requires i < |plan| && j < |plan| && Reaches(plan, i, j)
    ensures m < i && Via(plan, i, m, j)
  {
    m :| 0 <= m < i && Via(plan, i, m, j);
  }

  lemma {:induction false} ReachesEarlier(plan: seq<PlanStage>, i: nat, j: nat)
    requires i < |plan| && j < |plan| && Reaches(plan, i, j)
    ensures j < i
    decreases i
  {
    var m :| 0 <= m < i && Via(plan, i, m, j);
    if m != j {
      ReachesEarlier(plan, m, j);
    }
  }

  ghost predicate Ancestor(plan: seq<PlanStage>, i: nat, id: string)
    requires i < |plan|
  {
    exists j :: 0 <= j < |plan| && plan[j].id == id && Reaches(plan, i, j)
  }

  function AllProduced(stages: seq<GraphStage>): seq<string> {
    if stages == [] then [] else AllProduced(stages[..|stages| - 1]) + stages[|stages| - 1].produces
  }

  ghost predicate Available(inputs: seq<string>, stages: seq<GraphStage>, i: nat, artifact: string)
    requires i < |stages|
  {
    artifact in inputs
    || exists j :: 0 <= j < |stages| && artifact in stages[j].produces && Reaches(PlanOf(stages), i, j)
  }

  /** The first `n` stages are in order: distinct dependencies on earlier stages, and every
      consumed artifact an input or the product of an ancestor. */
  ghost predicate OrderedTo(inputs: seq<string>, stages: seq<GraphStage>, n: nat)
    requires n <= |stages|
  {
    forall i :: 0 <= i < n ==>
      && Distinct(stages[i].stage.dependsOn)
      && DependsOnEarlier(PlanOf(stages), i)
      && forall c :: 0 <= c < |stages[i].consumes| ==> Available(inputs, stages, i, stages[i].consumes[c])
  }

  ghost predicate ValidGraph(inputs: seq<string>, stages: seq<GraphStage>) {
    && Distinct(PlanIds(PlanOf(stages)))
    && Distinct(inputs + AllProduced(stages))
    && OrderedTo(inputs, stages, |stages|)
  }

  // ---------------------------------------------------------------------- the pass

  ghost predicate KnowsAncestors(plan: seq<PlanStage>, m: nat, ancestors: map<string, set<string>>)
    requires m < |plan|
  {
    plan[m].id in ancestors && forall id :: id in ancestors[plan[m].id] <==> Ancestor(plan, m, id)
  }

  ghost predicate KnowsStages(plan: seq<PlanStage>, i: nat, completed: set<string>, ancestors: map<string, set<string>>)
    requires i <= |plan|
  {
    && (forall id :: id in completed <==> exists m :: 0 <= m < i && plan[m].id == id)
    && (forall m :: 0 <= m < i ==> KnowsAncestors(plan, m, ancestors))
  }

  /** Every artifact declared so far, with the stage that produces it. */
  ghost predicate KnowsProducers(inputs: seq<string>, stages: seq<GraphStage>, i: nat,
                                 producers: map<string, Option<string>>)
    requires i <= |stages|
  {
    && (forall a :: a in producers <==> a in inputs + AllProduced(stages[..i]))
    && (forall a :: a in inputs ==> a in producers && producers[a] == None)
    && (forall m, a :: 0 <= m < i && a in stages[m].produces ==>
          a in producers && producers[a] == Some(stages[m].stage.id))
  }

  ghost predicate GatheredFrom(depends: seq<string>, ancestors: map<string, set<string>>, id: string) {
    exists d :: d in depends && d in ancestors && (id == d || id in ancestors[d])
  }

  lemma GatheredOneMore(depends: seq<string>, d: string, ancestors: map<string, set<string>>)
    requires d in ancestors
    ensures forall id :: GatheredFrom(depends + [d], ancestors, id) <==>
      GatheredFrom(depends, ancestors, id) || id == d || id in ancestors[d]
  {
    assert d in depends + [d];
  }

  lemma CompletedIsKnown(plan: seq<PlanStage>, i: nat, completed: set<string>, ancestors: map<string, set<string>>,
                         id: string)
    requires i <= |plan| && KnowsStages(plan, i, completed, ancestors) && id in completed
    ensures id in ancestors
  {
    hide Ancestor;
    var m :| 0 <= m < i && plan[m].id == id;
    assert KnowsAncestors(plan, m, ancestors);
  }

  /** The ancestors of one stage, gathered from those of its dependencies. */
  method GatherAncestors(plan: seq<PlanStage>, i: nat, completed: set<string>,
                         ancestors: map<string, set<string>>)
    returns (ok: bool, gathered: set<string>)
    requires i < |plan| && Distinct(PlanIds(plan))
    requires KnowsStages(plan, i, completed, ancestors)
    ensures ok <==> Distinct(plan[i].dependsOn) && DependsOnEarlier(plan, i)
    ensures ok ==> forall id :: id in gathered <==> Ancestor(plan, i, id)
  {
    hide Ancestor, Distinct, SetOf;
    var direct := {};
    gathered := {};
    var depends := plan[i].dependsOn;
    NothingKnown(depends);
    assert depends[..0] == [];
    for n := 0 to |depends|
      invariant Distinct(depends[..n]) && SetOf(direct, depends[..n])
      invariant forall d :: d in depends[..n] ==> d in completed && d in ancestors
      invariant forall id :: id in gathered <==> GatheredFrom(depends[..n], ancestors, id)
    {
      var d := depends[n];
      SetDecides(direct, depends, n);
      assert depends[..n + 1] == depends[..n] + [d];
      if d in direct {
        return false, gathered;
      }
      direct := direct + {d};
      if d !in completed {
        assert d in plan[i].dependsOn;
        return false, gathered;
      }
      CompletedIsKnown(plan, i, completed, ancestors, d);
      GatheredOneMore(depends[..n], d, ancestors);
      gathered := gathered + {d} + ancestors[d];
    }
    assert depends[..|depends|] == depends;
    forall id ensures id in gathered <==> Ancestor(plan, i, id) {
      AncestorsCompose(plan, i, id, ancestors);
    }
    return true, gathered;
  }

  /** Ancestors are dependencies and their ancestors. */
  lemma AncestorsCompose(plan: seq<PlanStage>, i: nat, id: string, ancestors: map<string, set<string>>)
    requires i < |plan| && Distinct(PlanIds(plan)) && DependsOnEarlier(plan, i)
    requires forall m :: 0 <= m < i ==> KnowsAncestors(plan, m, ancestors)
    ensures Ancestor(plan, i, id) <==> GatheredFrom(plan[i].dependsOn, ancestors, id)
  {
    if Ancestor(plan, i, id) {
      var j :| 0 <= j < |plan| && plan[j].id == id && Reaches(plan, i, j);
      var m := ReachesVia(plan, i, j);
      assert KnowsAncestors(plan, m, ancestors);
      var d := plan[m].id;
      assert m == j || Ancestor(plan, m, id);
      assert d in plan[i].dependsOn && (id == d || id in ancestors[d]);
    }
    forall d | d in plan[i].dependsOn && d in ancestors && (id == d || id in ancestors[d])
      ensures Ancestor(plan, i, id)
    {
      var m :| 0 <= m < i && plan[m].id == d;
      assert KnowsAncestors(plan, m, ancestors);
      if id == d {
        assert Via(plan, i, m, m);
        assert Reaches(plan, i, m);
      } else {
        assert Ancestor(plan, m, id);
        var j :| 0 <= j < |plan| && plan[j].id == id && Reaches(plan, m, j);
        assert Via(plan, i, m, j);
        assert Reaches(plan, i, j);
      }
    }
  }

  /** Looking an artifact up decides whether an ancestor produces it. */
  lemma LookupDecides(inputs: seq<string>, stages: seq<GraphStage>, i: nat, gathered: set<string>,
                      producers: map<string, Option<string>>, artifact: string)
    requires i < |stages| && Distinct(PlanIds(PlanOf(stages))) && KnowsProducers(inputs, stages, i, producers)
    requires forall id :: id in gathered <==> Ancestor(PlanOf(stages), i, id)
    ensures artifact in producers && (producers[artifact].None? || producers[artifact].value in gathered)
      <==> Available(inputs, stages, i, artifact)
  {
    var plan := PlanOf(stages);
    if Available(inputs, stages, i, artifact) && artifact !in inputs {
      var j :| 0 <= j < |stages| && artifact in stages[j].produces && Reaches(plan, i, j);
      ReachesEarlier(plan, i, j);
      assert Ancestor(plan, i, plan[j].id);
    }
    if artifact in producers && artifact !in inputs {
      AllProducedHas(stages[..i], artifact);
      var m :| 0 <= m < i && artifact in stages[..i][m].produces;
      assert producers[artifact] == Some(plan[m].id);
      if plan[m].id in gathered {
        var j :| 0 <= j < |plan| && plan[j].id == plan[m].id && Reaches(plan, i, j);
        SameIdSameStage(plan, m, j);
      }
    }
  }

  lemma {:induction false} AllProducedHas(stages: seq<GraphStage>, artifact: string)
    ensures artifact in AllProduced(stages) <==> exists m :: 0 <= m < |stages| && artifact in stages[m].produces
    decreases |stages|
  {
    if stages != [] {
      var front := stages[..|stages| - 1];
      AllProducedHas(front, artifact);
      if m :| 0 <= m < |stages| && artifact in stages[m].produces {
        assert m < |front| ==> front[m] == stages[m];
      }
      if m :| 0 <= m < |front| && artifact in front[m].produces {
        assert front[m] == stages[m];
      }
    }
  }

  lemma {:induction false} ProducedPrefix(inputs: seq<string>, stages: seq<GraphStage>, i: nat)
    requires i <= |stages|
    ensures inputs + AllProduced(stages[..i]) <= inputs + AllProduced(stages)
    decreases |stages|
  {
    if i == |stages| {
      assert stages[..i] == stages;
    } else {
      var front := stages[..|stages| - 1];
      ProducedPrefix(inputs, front, i);
      assert front[..i] == stages[..i];
    }
  }

  lemma PrefixDistinct(values: seq<string>, longer: seq<string>)
    requires values <= longer && Distinct(longer)
    ensures Distinct(values)
  {
  }

  /** The inputs of one stage, looked up one by one. */
  method CheckConsumed(inputs: seq<string>, stages: seq<GraphStage>, i: nat, gathered: set<string>,
                       producers: map<string, Option<string>>)
    returns (ok: bool)
    requires i < |stages| && Distinct(PlanIds(PlanOf(stages))) && KnowsProducers(inputs, stages, i, producers)
    requires forall id :: id in gathered <==> Ancestor(PlanOf(stages), i, id)
    ensures ok <==> forall c :: 0 <= c < |stages[i].consumes| ==> Available(inputs, stages, i, stages[i].consumes[c])
  {
    hide Available, KnowsProducers, Ancestor, Distinct;
    var consumes := stages[i].consumes;
    for n := 0 to |consumes|
      invariant forall c :: 0 <= c < n ==> Available(inputs, stages, i, consumes[c])
    {
      LookupDecides(inputs, stages, i, gathered, producers, consumes[n]);
      if consumes[n] !in producers {
        return false;
      }
      if producers[consumes[n]].Some? && producers[consumes[n]].value !in gathered {
        return false;
      }
    }
    return true;
  }

  /** The outputs of one stage: refused where an identity is declared again. */
  method AddProduced(inputs: seq<string>, stages: seq<GraphStage>, i: nat, producers: map<string, Option<string>>)
    returns (ok: bool, extended: map<string, Option<string>>)
    requires i < |stages| && KnowsProducers(inputs, stages, i, producers)
    requires Distinct(inputs + AllProduced(stages[..i]))
    ensures ok <==> Distinct(inputs + AllProduced(stages[..i + 1]))
    ensures ok ==> KnowsProducers(inputs, stages, i + 1, extended)
  {
    hide Distinct;
    var produces := stages[i].produces;
    ghost var known := inputs + AllProduced(stages[..i]);
    assert stages[..i + 1][..i] == stages[..i];
    assert inputs + AllProduced(stages[..i + 1]) == known + produces;
    var outputs := {};
    extended := producers;
    assert known + produces[..0] == known;
    for n := 0 to |produces|
      invariant Distinct(known + produces[..n])
      invariant forall a :: a in outputs <==> a in produces[..n]
      invariant forall a :: a in extended <==> a in producers || a in outputs
      invariant forall a :: a in producers ==> extended[a] == producers[a]
      invariant forall a :: a in outputs ==> a !in producers && extended[a] == Some(stages[i].stage.id)
    {
      var a := produces[n];
      assert known + produces[..n + 1] == (known + produces[..n]) + [a];
      DistinctOneMore(known + produces[..n], a);
      if a in producers || a in outputs {
        if Distinct(known + produces) {
          assert known + produces[..n + 1] <= known + produces;
          PrefixDistinct(known + produces[..n + 1], known + produces);
        }
        return false, extended;
      }
      outputs := outputs + {a};
      extended := extended[a := Some(stages[i].stage.id)];
    }
    assert produces[..|produces|] == produces;
    return true, extended;
  }

  /** The graph part of `validate_authored_configuration`. */
  method ValidateGraph(inputs: seq<string>, stages: seq<GraphStage>) returns (ok: bool)
    ensures ok <==> ValidGraph(inputs, stages)
  {
    hide Distinct, KnowsProducers, KnowsStages, OrderedTo, AllProduced;
    var producers: map<string, Option<string>>;
    ok, producers := DeclareInputs(inputs, stages);
    ProducedPrefix(inputs, stages, 0);
    if !ok {
      NotDistinct(inputs, stages, 0);
      return false;
    }
    var plan := PlanOf(stages);
    ok := AllDistinct(PlanIds(plan));
    if !ok {
      return false;
    }
    var completed, ancestors := {}, map[];
    NothingOrdered(inputs, stages, plan);
    for i := 0 to |stages|
      invariant KnowsStages(plan, i, completed, ancestors) && KnowsProducers(inputs, stages, i, producers)
      invariant Distinct(inputs + AllProduced(stages[..i])) && OrderedTo(inputs, stages, i)
    {
      var gathered;
      ok, gathered := GatherAncestors(plan, i, completed, ancestors);
      OrderedOneMore(inputs, stages, i);
      if !ok {
        return false;
      }
      ok := CheckConsumed(inputs, stages, i, gathered, producers);
      if !ok {
        return false;
      }
      ok, producers := AddProduced(inputs, stages, i, producers);
      if !ok {
        NotDistinct(inputs, stages, i + 1);
        return false;
      }
      StagesOneMore(plan, i, completed, ancestors, gathered);
      ancestors := ancestors[plan[i].id := gathered];
      completed := completed + {plan[i].id};
    }
    assert stages[..|stages|] == stages;
    return true;
  }

  method DeclareInputs(inputs: seq<string>, ghost stages: seq<GraphStage>)
    returns (ok: bool, producers: map<string, Option<string>>)
    ensures ok <==> Distinct(inputs + AllProduced(stages[..0]))
    ensures ok ==> KnowsProducers(inputs, stages, 0, producers)
  {
    hide Distinct;
    assert inputs + AllProduced(stages[..0]) == inputs;
    producers := map[];
    NothingKnown(inputs);
    for n := 0 to |inputs|
      invariant Distinct(inputs[..n])
      invariant forall a :: a in producers <==> a in inputs[..n]
      invariant forall a :: a in producers ==> producers[a] == None
    {
      SetDecides(producers.Keys, inputs, n);
      assert inputs[..n + 1] == inputs[..n] + [inputs[n]];
      if inputs[n] in producers {
        return false, producers;
      }
      producers := producers[inputs[n] := None];
    }
    assert inputs[..|inputs|] == inputs;
    return true, producers;
  }

  method AllDistinct(values: seq<string>) returns (ok: bool)
    ensures ok <==> Distinct(values)
  {
    hide Distinct, SetOf;
    var known := {};
    NothingKnown(values);
    for n := 0 to |values|
      invariant Distinct(values[..n]) && SetOf(known, values[..n])
    {
      SetDecides(known, values, n);
      if values[n] in known {
        return false;
      }
      known := known + {values[n]};
    }
    assert values[..|values|] == values;
    return true;
  }

  lemma NotDistinct(inputs: seq<string>, stages: seq<GraphStage>, i: nat)
    requires i <= |stages| && !Distinct(inputs + AllProduced(stages[..i]))
    ensures !ValidGraph(inputs, stages)
  {
    hide Distinct, AllProduced;
    ProducedPrefix(inputs, stages, i);
    if Distinct(inputs + AllProduced(stages)) {
      PrefixDistinct(inputs + AllProduced(stages[..i]), inputs + AllProduced(stages));
    }
  }

  lemma NothingOrdered(inputs: seq<string>, stages: seq<GraphStage>, plan: seq<PlanStage>)
    ensures KnowsStages(plan, 0, {}, map[]) && OrderedTo(inputs, stages, 0)
  {
  }

  /** A stage that is out of order spoils every longer list. */
  lemma OrderedOneMore(inputs: seq<string>, stages: seq<GraphStage>, i: nat)
    requires i < |stages| && OrderedTo(inputs, stages, i)
    ensures OrderedTo(inputs, stages, i + 1) <==>
      && Distinct(PlanOf(stages)[i].dependsOn)
      && DependsOnEarlier(PlanOf(stages), i)
      && forall c :: 0 <= c < |stages[i].consumes| ==> Available(inputs, stages, i, stages[i].consumes[c])
    ensures OrderedTo(inputs, stages, |stages|) ==> OrderedTo(inputs, stages, i + 1)
  {
    hide Distinct, DependsOnEarlier, Available;
  }

  lemma StagesOneMore(plan: seq<PlanStage>, i: nat, completed: set<string>, ancestors: map<string, set<string>>,
                      gathered: set<string>)
    requires i < |plan| && Distinct(PlanIds(plan)) && KnowsStages(plan, i, completed, ancestors)
    requires forall id :: id in gathered <==> Ancestor(plan, i, id)
    ensures KnowsStages(plan, i + 1, completed + {plan[i].id}, ancestors[plan[i].id := gathered])
  {
    hide Ancestor, Distinct;
    var longer := ancestors[plan[i].id := gathered];
    forall m | 0 <= m < i + 1 ensures KnowsAncestors(plan, m, longer) {
      if m < i {
        assert KnowsAncestors(plan, m, ancestors);
        if plan[m].id == plan[i].id {
          SameIdSameStage(plan, m, i);
        }
      }
    }
  }

  // -------------------------------------------------------------------------- facts

  /** One declaration of each artifact: no input, and no product of a stage, is declared again. */
  ghost predicate DeclaredOnce(inputs: seq<string>, stages: seq<GraphStage>) {
    && Distinct(inputs)
    && (forall i :: 0 <= i < |stages| ==> Distinct(stages[i].produces))
    && (forall i, a :: 0 <= i < |stages| && a in stages[i].produces ==> a !in inputs)
    && (forall i, j, a :: 0 <= i < j < |stages| && a in stages[i].produces ==> a !in stages[j].produces)
  }

  lemma {:induction false} ProducedOnce(inputs: seq<string>, stages: seq<GraphStage>)
    ensures Distinct(inputs + AllProduced(stages)) <==> DeclaredOnce(inputs, stages)
    decreases |stages|
  {
    if stages == [] {
      assert inputs + AllProduced(stages) == inputs;
    } else {
      var n := |stages| - 1;
      var front := stages[..n];
      ProducedOnce(inputs, front);
      AllProducedHas(front, "");
      DistinctJoins(inputs + AllProduced(front), stages[n].produces);
      assert inputs + AllProduced(stages) == (inputs + AllProduced(front)) + stages[n].produces;
      forall a ensures a in inputs + AllProduced(front) <==>
        a in inputs || exists m :: 0 <= m < n && a in stages[m].produces
      {
        AllProducedHas(front, a);
        assert forall m :: 0 <= m < n ==> front[m] == stages[m];
      }
      hide AllProduced, Distinct;
      assert forall m :: 0 <= m < n ==> front[m] == stages[m];
    }
  }

  lemma DistinctJoins(left: seq<string>, right: seq<string>)
    ensures Distinct(left + right) <==>
      Distinct(left) && Distinct(right) && forall a :: a in left ==> a !in right
  {
    var whole := left + right;
    if Distinct(whole) {
      forall i, j | 0 <= i < j < |right| ensures right[i] != right[j] {
        assert whole[|left| + i] != whole[|left| + j];
      }
      forall i, j | 0 <= i < |left| && 0 <= j < |right| ensures left[i] != right[j] {
        assert whole[i] != whole[|left| + j];
      }
      PrefixDistinct(left, whole);
    } else {
      var i, j :| 0 <= i < j < |whole| && whole[i] == whole[j];
      if i < |left| <= j {
        assert left[i] in left && left[i] == right[j - |left|];
      } else if |left| <= i {
        assert right[i - |left|] == right[j - |left|];
      } else {
        assert left[i] == left[j];
      }
    }
  }

  /** What the pass guarantees: the plan that the executor takes for granted. */
  lemma GraphIsPlan(inputs: seq<string>, stages: seq<GraphStage>)
    requires ValidGraph(inputs, stages) && stages != []
    ensures ValidPlan(PlanOf(stages))
  {
    forall i | 0 <= i < |stages| ensures DependsOnEarlier(PlanOf(stages), i) {
    }
  }

  /** List order is an execution order: no stage is its own ancestor, and whatever a stage
      consumes is an input or the product of a stage before it. */
  lemma ListOrderSuffices(inputs: seq<string>, stages: seq<GraphStage>, i: nat, artifact: string)
    requires ValidGraph(inputs, stages) && i < |stages| && artifact in stages[i].consumes
    ensures !Reaches(PlanOf(stages), i, i)
    ensures artifact in inputs || exists j :: 0 <= j < i && artifact in stages[j].produces
  {
    var plan := PlanOf(stages);
    if Reaches(plan, i, i) {
      ReachesEarlier(plan, i, i);
    }
    var c :| 0 <= c < |stages[i].consumes| && stages[i].consumes[c] == artifact;
    assert Available(inputs, stages, i, artifact);
    if artifact !in inputs {
      var j :| 0 <= j < |stages| && artifact in stages[j].produces && Reaches(plan, i, j);
      ReachesEarlier(plan, i, j);
    }
  }

  /** A root, or a stage that depends on one. */
  ghost predicate Below(plan: seq<PlanStage>, roots: set<string>, j: nat)
    requires j < |plan|
  {
    plan[j].id in roots || exists r :: 0 <= r < |plan| && plan[r].id in roots && Reaches(plan, j, r)
  }

  /** The roots and all their descendants. */
  ghost function FrontierOf(plan: seq<PlanStage>, roots: set<string>): set<string> {
    roots + set j | 0 <= j < |plan| && Below(plan, roots, j) :: plan[j].id
  }

  /** The least closed set is exactly the roots and their descendants. */
  lemma FrontierIsDescendants(plan: seq<PlanStage>, roots: set<string>, f: set<string>)
    requires ValidPlan(plan)
    ensures IsFrontier(plan, roots, f) <==> f == FrontierOf(plan, roots)
  {
    hide ValidPlan, Below;
    FrontierOfIsClosed(plan, roots);
    var whole := FrontierOf(plan, roots);
    forall g | roots <= g && ClosedUnder(plan, g) ensures whole <= g {
      forall j | 0 <= j < |plan| && Below(plan, roots, j) ensures plan[j].id in g {
        BelowIsIn(plan, roots, g, j);
      }
    }
    assert IsFrontier(plan, roots, whole);
    if IsFrontier(plan, roots, f) {
      assert f <= whole && whole <= f;
    }
  }

  /** A stage of the plan is in the frontier exactly when it is a root or descends from one. */
  lemma FrontierMeans(plan: seq<PlanStage>, roots: set<string>, j: nat)
    requires Distinct(PlanIds(plan)) && j < |plan|
    ensures plan[j].id in FrontierOf(plan, roots) <==> Below(plan, roots, j)
  {
    hide Distinct, Reaches;
    if i :| 0 <= i < |plan| && Below(plan, roots, i) && plan[i].id == plan[j].id {
      SameIdSameStage(plan, i, j);
    }
  }

  /** Of a single root: the stage itself, or one that reaches it. */
  lemma FrontierOfOne(plan: seq<PlanStage>, k: nat, j: nat)
    requires Distinct(PlanIds(plan)) && k < |plan| && j < |plan|
    ensures plan[j].id in FrontierOf(plan, {plan[k].id}) <==> j == k || Reaches(plan, j, k)
  {
    hide Distinct, Reaches;
    FrontierMeans(plan, {plan[k].id}, j);
    if plan[j].id == plan[k].id {
      SameIdSameStage(plan, j, k);
    }
    if r :| 0 <= r < |plan| && plan[r].id in {plan[k].id} && Reaches(plan, j, r) {
      SameIdSameStage(plan, r, k);
    }
  }

  lemma FrontierOfIsClosed(plan: seq<PlanStage>, roots: set<string>)
    requires ValidPlan(plan)
    ensures roots <= FrontierOf(plan, roots) && ClosedUnder(plan, FrontierOf(plan, roots))
  {
    var f := FrontierOf(plan, roots);
    forall s | 0 <= s < |plan| && Touches(plan[s], f) ensures plan[s].id in f {
      var n :| 0 <= n < |plan[s].dependsOn| && plan[s].dependsOn[n] in f;
      assert plan[s].dependsOn[n] in plan[s].dependsOn && DependsOnEarlier(plan, s);
      var m :| 0 <= m < s && plan[m].id == plan[s].dependsOn[n];
      FrontierMeans(plan, roots, m);
      DirectIsBelow(plan, roots, s, m);
    }
  }

  lemma DirectIsBelow(plan: seq<PlanStage>, roots: set<string>, s: nat, m: nat)
    requires m < s < |plan| && plan[m].id in plan[s].dependsOn && Below(plan, roots, m)
    ensures Below(plan, roots, s)
  {
    if plan[m].id in roots {
      assert Via(plan, s, m, m);
      assert Reaches(plan, s, m);
    } else {
      var r :| 0 <= r < |plan| && plan[r].id in roots && Reaches(plan, m, r);
      assert Via(plan, s, m, r);
      assert Reaches(plan, s, r);
    }
  }

  lemma {:induction false} BelowIsIn(plan: seq<PlanStage>, roots: set<string>, g: set<string>, j: nat)
    requires j < |plan| && roots <= g && ClosedUnder(plan, g) && Below(plan, roots, j)
    ensures plan[j].id in g
    decreases j
  {
    if plan[j].id !in roots {
      var r :| 0 <= r < |plan| && plan[r].id in roots && Reaches(plan, j, r);
      var m := ReachesVia(plan, j, r);
      assert Below(plan, roots, m);
      BelowIsIn(plan, roots, g, m);
      var n :| 0 <= n < |plan[j].dependsOn| && plan[j].dependsOn[n] == plan[m].id;
      assert Touches(plan[j], g);
    }
  }

  lemma {:induction false} ReachesTransitive(plan: seq<PlanStage>, i: nat, j: nat, k: nat)
    requires i < |plan| && j < |plan| && k < |plan| && Reaches(plan, i, j) && Reaches(plan, j, k)
    ensures Reaches(plan, i, k)
    decreases i
  {
    var m := ReachesVia(plan, i, j);
    if m != j {
      ReachesTransitive(plan, m, j, k);
    }
    assert Via(plan, i, m, k);
  }
}
