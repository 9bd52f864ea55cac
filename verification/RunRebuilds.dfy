/** A session of src/run_v3.rs that completes a run leaves nothing stale: with a stage that is
    invalidated, everything that depends on it is built again afterwards. */
module RunRebuilds {
  import opened PipelineGraph
  import opened RunExecution
  import opened RunFates
  import opened RunJudgement
  import opened RunManifests
  import opened RunSafety
  import opened RunTrace
  import opened Wrappers

  /** The stage records of successive revisions. */
  function Revised(effects: seq<Effect>): seq<seq<Record>>
    decreases |effects|
  {
    if effects == [] then []
    else (if effects[0].Revise? then [effects[0].step.stages] else []) + Revised(effects[1..])
  }

  function Before(start: seq<Record>, h: seq<seq<Record>>, i: nat): seq<Record>
    requires i <= |h|
  {
    if i == 0 then start else h[i - 1]
  }

  /** Revision `i` changes stage `x` to invalidated, or its explanation. */
  predicate Invalidates(start: seq<Record>, h: seq<seq<Record>>, i: nat, x: nat) {
    && i < |h| && x < |h[i]| && x < |Before(start, h, i)|
    && h[i][x].state.Invalidated? && h[i][x] != Before(start, h, i)[x]
  }

  /** Stage `j` starts in revision `i`, then is validated, then completed. */
  predicate Builds(start: seq<Record>, h: seq<seq<Record>>, i: nat, j: nat, done: Record) {
    && i + 2 < |h| && j < |Before(start, h, i)| && j < |h[i]| && j < |h[i + 1]| && j < |h[i + 2]|
    && h[i][j].state.Running? && !Before(start, h, i)[j].state.Running?
    && h[i + 1][j].state.Validating? && h[i + 2][j] == done && done.state.Complete?
  }

  predicate Rebuilt(start: seq<Record>, h: seq<seq<Record>>, from: nat, j: nat, done: Record) {
    exists i :: from <= i < |h| && Builds(start, h, i, j, done)
  }

  lemma {:induction false} RevisedJoin(first: seq<Effect>, second: seq<Effect>)
    ensures Revised(first + second) == Revised(first) + Revised(second)
    decreases |first|
  {
    if first == [] {
      assert first + second == second;
    } else {
      assert (first + second)[0] == first[0] && (first + second)[1..] == first[1..] + second;
      RevisedJoin(first[1..], second);
    }
  }

  lemma {:induction false} RevisedLast(start: seq<Record>, effects: seq<Effect>)
    ensures RecordsAfter(start, effects) == Before(start, Revised(effects), |Revised(effects)|)
    decreases |effects|
  {
    if effects != [] {
      var next := if effects[0].Revise? then effects[0].step.stages else start;
      RevisedLast(next, effects[1..]);
    }
  }

  lemma InvalidatesJoin(start: seq<Record>, first: seq<seq<Record>>, second: seq<seq<Record>>, i: nat, x: nat)
    ensures Invalidates(start, first + second, i, x) <==>
      if i < |first| then Invalidates(start, first, i, x)
      else Invalidates(Before(start, first, |first|), second, i - |first|, x)
  {
    if |first| <= i <= |first + second| {
      BeforeJoin(start, first, second, i);
    }
  }

  lemma BeforeJoin(start: seq<Record>, first: seq<seq<Record>>, second: seq<seq<Record>>, i: nat)
    requires |first| <= i <= |first + second|
    ensures Before(start, first + second, i) == Before(Before(start, first, |first|), second, i - |first|)
  {
  }

  lemma RebuiltFirst(start: seq<Record>, first: seq<seq<Record>>, second: seq<seq<Record>>, from: nat, j: nat,
                     done: Record)
    requires Rebuilt(start, first, from, j, done)
    ensures Rebuilt(start, first + second, from, j, done)
  {
    var i :| from <= i < |first| && Builds(start, first, i, j, done);
    assert Builds(start, first + second, i, j, done);
  }

  lemma RebuiltSecond(start: seq<Record>, first: seq<seq<Record>>, second: seq<seq<Record>>, from: nat, j: nat,
                      done: Record)
    requires Rebuilt(Before(start, first, |first|), second, from, j, done)
    ensures Rebuilt(start, first + second, |first| + from, j, done)
  {
    var i :| from <= i < |second| && Builds(Before(start, first, |first|), second, i, j, done);
    BeforeJoin(start, first, second, |first| + i);
    assert Builds(start, first + second, |first| + i, j, done);
  }

  lemma RebuiltSooner(start: seq<Record>, h: seq<seq<Record>>, from: nat, sooner: nat, j: nat, done: Record)
    requires Rebuilt(start, h, from, j, done) && sooner <= from
    ensures Rebuilt(start, h, sooner, j, done)
  {
  }

  // ------------------------------------------------------------------------- parts

  /** Nothing is invalidated. */
  ghost predicate Spares(start: seq<Record>, h: seq<seq<Record>>) {
    forall i: nat, x: nat :: !Invalidates(start, h, i, x)
  }

  lemma {:induction false} InvalidationStrikes(f: set<string>, k: nat, decision: Decision, desk: Desk, j: nat,
                                               i: nat, x: nat)
    requires j <= |desk.records|
    requires Invalidates(desk.records, Revised(Invalidation(f, k, decision, desk, j).effects), i, x)
    ensures x < |desk.records| && desk.records[x].stageId in f
    decreases |desk.records| - j
  {
    hide Why, InvalidatedRecord;
    if j < |desk.records| {
      if desk.records[j].stageId in f {
        var r := InvalidatedRecord(desk.records[j], Why(k, j, decision));
        assert r.stageId == desk.records[j].stageId by { SameStage(desk.records[j], Why(k, j, decision)); }
        var one := Change(Invalidating(j), desk, j, r);
        var rest := Invalidation(f, k, decision, one.desk, j + 1);
        assert Invalidation(f, k, decision, desk, j).effects == one.effects + rest.effects;
        OneRevised(one.effects[0].step);
        RevisedJoin(one.effects, rest.effects);
        hide Invalidation, Revised, Invalidates;
        InvalidatesJoin(desk.records, Revised(one.effects), Revised(rest.effects), i, x);
        if i == 0 {
          OneStrikes(desk.records, j, r, x);
        } else {
          InvalidationStrikes(f, k, decision, one.desk, j + 1, i - 1, x);
        }
      } else {
        InvalidationStrikes(f, k, decision, desk, j + 1, i, x);
      }
    }
  }

  lemma SameStage(r: Record, why: Decision)
    ensures InvalidatedRecord(r, why).stageId == r.stageId
  {
  }

  lemma OneRevised(s: Step)
    ensures Revised([Revise(s)]) == [s.stages]
  {
    assert [Revise(s)][1..] == [];
  }

  lemma OneStrikes(records: seq<Record>, j: nat, r: Record, x: nat)
    requires j < |records| && Invalidates(records, [records[j := r]], 0, x)
    ensures x == j
  {
  }

  /** The three records that stage `k` has in turn while it is built. */
  function BuildHistory(records: seq<Record>, k: nat, done: Record): seq<seq<Record>>
    requires k < |records|
  {
    var r := StartedRecord(records[k]);
    [records[k := r], records[k := r.(state := Validating)], records[k := done]]
  }

  lemma HistoryBuilds(records: seq<Record>, k: nat, done: Record)
    requires k < |records| && !records[k].state.Running? && done.state.Complete?
    ensures Rebuilt(records, BuildHistory(records, k, done), 0, k, done)
    ensures Spares(records, BuildHistory(records, k, done))
  {
    assert Builds(records, BuildHistory(records, k, done), 0, k, done);
  }

  lemma {:induction false} FourRevised(e: seq<Effect>)
    requires |e| == 4 && e[0].Revise? && e[1].Revise? && e[2].Publish? && e[3].Revise?
    ensures Revised(e) == [e[0].step.stages, e[1].step.stages, e[3].step.stages]
  {
    var e3 := [e[3]];
    var e2 := [e[2], e[3]];
    var e1 := [e[1], e[2], e[3]];
    assert e[1..] == e1 && e1[1..] == e2 && e2[1..] == e3;
    OneRevised(e[3].step);
    assert Revised(e2) == Revised(e3);
  }

  /** A build that completes passes through its three revisions, and invalidates nothing. */
  lemma BuildRevises(desk: Desk, k: nat, a: Attempt)
    requires k < |desk.records| && a.Publishes? && a.next.Completes? && !desk.records[k].state.Running?
    ensures var h := Revised(BuildEffects(desk, k, a));
      var r := desk.records[k];
      var done := CompletedRecord(r, Reference(r.stageId, a.digest), a.next.cacheMessage);
      && Rebuilt(desk.records, h, 0, k, done) && Spares(desk.records, h)
      && RecordsAfter(desk.records, BuildEffects(desk, k, a)) == desk.records[k := done]
  {
    var r := desk.records[k];
    var done := CompletedRecord(r, Reference(r.stageId, a.digest), a.next.cacheMessage);
    hide Revised, Rebuilt, Spares, RecordsAfter;
    FourRevised(BuildEffects(desk, k, a));
    assert Revised(BuildEffects(desk, k, a)) == BuildHistory(desk.records, k, done);
    HistoryBuilds(desk.records, k, done);
    RevisedLast(desk.records, BuildEffects(desk, k, a));
  }

  /** What a visit that goes on does to the records: a stage that is not kept is built, and
      whatever is invalidated depends on the stage and is struck before the build. */
  ghost predicate Renews(s: Setting, k: nat, desk: Desk, p: Part)
    requires Shaped(s) && k < |s.plan| && GoesOn(s, k)
  {
    var h := Revised(p.effects);
    && Coherent(desk, p)
    && (!FateOf(s, k).Kept? ==> Rebuilt(desk.records, h, 0, k, Settled(s, k)))
    && forall i: nat, x: nat :: Invalidates(desk.records, h, i, x) ==>
         && x < |s.plan| && FateOf(s, k).Root? && (x == k || Reaches(s.plan, x, k))
         && Rebuilt(desk.records, h, i + 1, k, Settled(s, k))
  }

  lemma VisitRenews(s: Setting, k: nat, desk: Desk, invalidated: set<string>)
    requires Ready(s) && k < |s.plan| && Entering(s, k, desk, invalidated) && GoesOn(s, k)
    ensures Fits(desk) && |desk.records| == |s.plan|
    ensures Renews(s, k, desk, Visited(s.plan, desk, k, s.script.visits[k],
                                       Forced(s.plan, s.start.records, s.selected), invalidated, s.resume).part)
  {
    EnteringMeans(s, k, desk, invalidated);
    match FateOf(s, k) {
      case Kept(digest) =>
        KeptEnters(s, k, desk, invalidated);
        KeptRenews(s, k, desk, digest);
      case Root =>
        RootEnters(s, k, desk, invalidated);
        RootRenews(s, k, desk, invalidated);
      case _ =>
        BuildEnters(s, k, desk, invalidated);
        BuildRenews(s, k, desk, invalidated);
    }
  }

  lemma KeptRenews(s: Setting, k: nat, desk: Desk, digest: string)
    requires Shaped(s) && k < |s.plan| == |desk.records| && GoesOn(s, k) && FateOf(s, k).Kept?
    ensures Renews(s, k, desk, Reused(desk, k, digest))
  {
    hide FateOf, Settled;
    var p := Reused(desk, k, digest);
    OneRevised(p.effects[0].step);
    OneAfter(desk, p.effects[0].step, p.desk);
  }

  lemma BuildRenews(s: Setting, k: nat, desk: Desk, invalidated: set<string>)
    requires Ready(s) && k < |s.plan| && Entering(s, k, desk, invalidated) && GoesOn(s, k)
    requires !FateOf(s, k).Kept? && !FateOf(s, k).Root? && Fits(desk) && |desk.records| == |s.plan|
    ensures Renews(s, k, desk, Build(desk, k, s.script.visits[k].attempt))
  {
    EnteringMeans(s, k, desk, invalidated);
    WaitsAtBuild(s, k, desk, invalidated);
    BuiltSettles(s, k, desk.records[k]);
    ExpectedOf(s, k, k);
    var a := s.script.visits[k].attempt;
    BuildResult(desk, k, a);
    BuildRevises(desk, k, a);
    hide Build, BuildEffects, FateOf, Settled, Revised, Rebuilt, Invalidates, OrderlyDesk, ValidPlan, Expected;
    hide RecordsAfter, Entering, CompletedRecord;
  }

  lemma WaitsAtBuild(s: Setting, k: nat, desk: Desk, invalidated: set<string>)
    requires Ready(s) && k < |s.plan| && Entering(s, k, desk, invalidated)
    requires !FateOf(s, k).Kept? && !FateOf(s, k).Root?
    ensures |desk.records| == |s.plan| && !desk.records[k].state.Running?
  {
    WarmAtBuild(s, k, desk, RunState.Running, invalidated);
  }

  lemma BuiltSettles(s: Setting, k: nat, r: Record)
    requires Ready(s) && k < |s.plan| && !FateOf(s, k).Kept? && GoesOn(s, k)
    requires r.stageId == s.plan[k].id && r.excluded == Base(s, k).excluded
    ensures var a := s.script.visits[k].attempt;
      Settled(s, k) == CompletedRecord(r, Reference(r.stageId, a.digest), a.next.cacheMessage)
  {
    AlignedMeans(s.plan, s.start.records);
    hide FateOf, Forced, OrderlyDesk, ValidPlan;
  }

  lemma RootRenews(s: Setting, k: nat, desk: Desk, invalidated: set<string>)
    requires Ready(s) && k < |s.plan| && Entering(s, k, desk, invalidated) && GoesOn(s, k)
    requires FateOf(s, k).Root? && Fits(desk) && |desk.records| == |s.plan|
    ensures var visit := s.script.visits[k];
      var cleared := Invalidation(FrontierOf(s.plan, {s.plan[k].id}), k, visit.otherwise, desk, 0);
      Renews(s, k, desk, Then(cleared, Build(cleared.desk, k, visit.attempt)))
  {
    var visit := s.script.visits[k];
    var f := FrontierOf(s.plan, {s.plan[k].id});
    var cleared := Invalidation(f, k, visit.otherwise, desk, 0);
    var build := Build(cleared.desk, k, visit.attempt);
    InvalidationResult(f, k, visit.otherwise, desk, 0);
    InvalidationCoherent(f, k, visit.otherwise, desk, 0);
    RootBuilds(s, k, desk, invalidated);
    RevisedLast(desk.records, cleared.effects);
    RevisedJoin(cleared.effects, build.effects);
    forall i: nat, x: nat | Invalidates(desk.records, Revised(cleared.effects), i, x)
      ensures x < |s.plan| && (x == k || Reaches(s.plan, x, k))
    {
      RootStrikes(s, k, desk, invalidated, i, x);
    }
    hide Build, FateOf, Settled, Revised, Invalidates, RecordsAfter, Coherent;
    hide Entering, Rebuilt, Invalidation, FrontierOf, Ready, Reaches, Spares;
    CoherentThen(desk, cleared, build);
    assert Before(desk.records, Revised(cleared.effects), |Revised(cleared.effects)|) == cleared.desk.records by {
      CoherentMeans(desk, cleared);
    }
    StruckThenBuilt(desk.records, Revised(cleared.effects), Revised(build.effects), k, Settled(s, k));
  }

  lemma CoherentMeans(desk: Desk, p: Part)
    requires Coherent(desk, p)
    ensures Before(desk.records, Revised(p.effects), |Revised(p.effects)|) == p.desk.records
  {
    RevisedLast(desk.records, p.effects);
  }

  lemma RootStrikes(s: Setting, k: nat, desk: Desk, invalidated: set<string>, i: nat, x: nat)
    requires Ready(s) && k < |s.plan| && Entering(s, k, desk, invalidated)
    requires var cleared := Invalidation(FrontierOf(s.plan, {s.plan[k].id}), k, s.script.visits[k].otherwise, desk, 0);
      Invalidates(desk.records, Revised(cleared.effects), i, x)
    ensures x < |s.plan| && (x == k || Reaches(s.plan, x, k))
  {
    hide Invalidation, FrontierOf, Revised, Invalidates;
    InvalidationStrikes(FrontierOf(s.plan, {s.plan[k].id}), k, s.script.visits[k].otherwise, desk, 0, i, x);
    AlignedStays(s, k, desk, invalidated);
    FrontierOfOne(s.plan, k, x);
  }

  lemma RootBuilds(s: Setting, k: nat, desk: Desk, invalidated: set<string>)
    requires Ready(s) && k < |s.plan| && Entering(s, k, desk, invalidated) && GoesOn(s, k)
    requires FateOf(s, k).Root? && Fits(desk) && |desk.records| == |s.plan|
    ensures var visit := s.script.visits[k];
      var cleared := Invalidation(FrontierOf(s.plan, {s.plan[k].id}), k, visit.otherwise, desk, 0);
      var build := Build(cleared.desk, k, visit.attempt);
      && cleared.end.None? && Coherent(cleared.desk, build) && Spares(cleared.desk.records, Revised(build.effects))
      && Rebuilt(cleared.desk.records, Revised(build.effects), 0, k, Settled(s, k))
  {
    var visit := s.script.visits[k];
    var f := FrontierOf(s.plan, {s.plan[k].id});
    var cleared := Invalidation(f, k, visit.otherwise, desk, 0);
    InvalidationResult(f, k, visit.otherwise, desk, 0);
    RootClears(s, k, desk, invalidated);
    BuiltSettles(s, k, cleared.desk.records[k]);
    hide Entering, FrontierOf, Invalidation, FateOf, Settled, Ready, Build, BuildEffects, Revised, Rebuilt, Invalidates;
    hide RecordsAfter, CompletedRecord;
    BuildResult(cleared.desk, k, visit.attempt);
    BuildRevises(cleared.desk, k, visit.attempt);
  }

  lemma StruckThenBuilt(start: seq<Record>, first: seq<seq<Record>>, second: seq<seq<Record>>, k: nat, done: Record)
    requires Rebuilt(Before(start, first, |first|), second, 0, k, done)
    requires Spares(Before(start, first, |first|), second)
    ensures Rebuilt(start, first + second, 0, k, done)
    ensures forall i: nat, x: nat :: Invalidates(start, first + second, i, x) ==>
      Invalidates(start, first, i, x) && Rebuilt(start, first + second, i + 1, k, done)
  {
    hide Rebuilt, Invalidates;
    RebuiltSecond(start, first, second, 0, k, done);
    RebuiltSooner(start, first + second, |first|, 0, k, done);
    forall i: nat, x: nat | Invalidates(start, first + second, i, x)
      ensures Invalidates(start, first, i, x) && Rebuilt(start, first + second, i + 1, k, done)
    {
      InvalidatesJoin(start, first, second, i, x);
      assert i < |first|;
      RebuiltSooner(start, first + second, |first|, i + 1, k, done);
    }
  }

  lemma RootClears(s: Setting, k: nat, desk: Desk, invalidated: set<string>)
    requires Ready(s) && k < |s.plan| && Entering(s, k, desk, invalidated) && FateOf(s, k).Root?
    ensures |desk.records| == |s.plan|
    ensures var f := FrontierOf(s.plan, {s.plan[k].id});
      var r := Invalidation(f, k, s.script.visits[k].otherwise, desk, 0).desk.records[k];
      r.state.Invalidated? && r.stageId == s.plan[k].id && r.excluded == Base(s, k).excluded
  {
    var f := FrontierOf(s.plan, {s.plan[k].id});
    InvalidationResult(f, k, s.script.visits[k].otherwise, desk, 0);
    ClearedIsExpected(s, k, desk, invalidated);
    EnteringMeans(s, k, desk, invalidated);
    FrontierOfOne(s.plan, k, k);
    hide Invalidation, FrontierOf, OrderlyDesk, ValidPlan, FateOf, Forced, Expected, Base;
  }

  // ---------------------------------------------------------------------- sessions

  /** Every stage from `k` on is kept or built; and after a stage is invalidated, it and
      everything that depends on it is built. */
  ghost predicate NothingStale(s: Setting, k: nat, start: seq<Record>, h: seq<seq<Record>>)
    requires Shaped(s) && AllGoOn(s)
  {
    && (forall j :: k <= j < |s.plan| && !FateOf(s, j).Kept? ==> Rebuilt(start, h, 0, j, Settled(s, j)))
    && (forall i: nat, x: nat, j: nat :: Invalidates(start, h, i, x) && x < |s.plan| && Affected(s.plan, x, j) ==>
          Rebuilt(start, h, i + 1, j, Settled(s, j)))
  }

  ghost predicate Affected(plan: seq<PlanStage>, x: nat, j: nat)
    requires x < |plan|
  {
    j < |plan| && (j == x || Reaches(plan, j, x))
  }

  /** What is struck is not kept. */
  lemma AffectedIsNotKept(s: Setting, k: nat, x: nat, j: nat)
    requires Ready(s) && k < |s.plan| && x < |s.plan| && FateOf(s, k).Root?
    requires x == k || Reaches(s.plan, x, k)
    requires Affected(s.plan, x, j)
    ensures j == k || (k < j && !FateOf(s, j).Kept?)
  {
    hide FateOf, OrderlyDesk, ValidPlan, Forced;
    if j != k {
      if x != k && j != x {
        ReachesTransitive(s.plan, j, x, k);
      }
      ReachesEarlier(s.plan, j, k);
      assert Struck(s, j, j);
      StruckIsNotKept(s, j);
    }
  }

  lemma StruckIsNotKept(s: Setting, j: nat)
    requires Shaped(s) && j < |s.plan| && Struck(s, j, j)
    ensures !FateOf(s, j).Kept?
  {
  }

  /** Every visit goes on. */
  ghost predicate AllGoOn(s: Setting)
    requires Shaped(s)
  {
    forall j :: 0 <= j < |s.plan| ==> GoesOn(s, j)
  }

  lemma OnwardStops(s: Setting, desk: Desk, invalidated: set<string>)
    requires Shaped(s) && |s.plan| == |desk.records| && Fits(desk) && AllGoOn(s)
    ensures var p := Onward(s, |s.plan|, desk, invalidated);
      Coherent(desk, p) && NothingStale(s, |s.plan|, desk.records, Revised(p.effects))
  {
    OnwardEnds(s, desk, invalidated);
    NothingIsStale(s, desk);
  }

  lemma TurnRenews(s: Setting, k: nat, desk: Desk, invalidated: set<string>)
    requires Ready(s) && k < |s.plan| && Entering(s, k, desk, invalidated) && AllGoOn(s)
    ensures Fits(desk) && |desk.records| == |s.plan| && GoesOn(s, k)
    ensures var t := TurnOf(s, k, desk, invalidated);
      t.part.end.None? && Renews(s, k, desk, t.part) && Entering(s, k + 1, t.part.desk, t.invalidated)
  {
    EnteringFits(s, k, desk, invalidated);
    AllGoOnAt(s, k);
    TurnEnters(s, k, desk, invalidated);
    VisitRenews(s, k, desk, invalidated);
  }

  lemma {:induction false} VisitsRenew(s: Setting, k: nat, desk: Desk, invalidated: set<string>)
    requires Shaped(s) && |desk.records| == |s.plan| && Fits(desk)
    requires Ready(s) && k <= |s.plan| && Entering(s, k, desk, invalidated) && AllGoOn(s)
    ensures var p := Onward(s, k, desk, invalidated);
      Coherent(desk, p) && NothingStale(s, k, desk.records, Revised(p.effects))
    decreases |s.plan| - k
  {
    hide Ready, TurnOf, Onward, Coherent, Entering, Renews, NothingStale, Revised, AllGoOn;
    if k == |s.plan| {
      OnwardStops(s, desk, invalidated);
    } else {
      TurnRenews(s, k, desk, invalidated);
      OnwardUnfolds(s, k, desk, invalidated);
      var t := TurnOf(s, k, desk, invalidated);
      VisitsRenew(s, k + 1, t.part.desk, t.invalidated);
      RenewsNext(s, k, desk, t.part, Onward(s, k + 1, t.part.desk, t.invalidated));
    }
  }

  lemma AllGoOnAt(s: Setting, k: nat)
    requires Shaped(s) && AllGoOn(s) && k < |s.plan|
    ensures GoesOn(s, k)
  {
  }

  lemma NothingIsStale(s: Setting, desk: Desk)
    requires Shaped(s) && AllGoOn(s)
    ensures Coherent(desk, Idle(desk)) && NothingStale(s, |s.plan|, desk.records, Revised(Idle(desk).effects))
  {
    NothingAfter(desk.records);
  }

  lemma RenewsNext(s: Setting, k: nat, desk: Desk, p: Part, q: Part)
    requires Ready(s) && k < |s.plan| && AllGoOn(s)
    requires p.end.None? && Renews(s, k, desk, p)
    requires Coherent(p.desk, q) && NothingStale(s, k + 1, p.desk.records, Revised(q.effects))
    ensures Coherent(desk, Then(p, q)) && NothingStale(s, k, desk.records, Revised(Then(p, q).effects))
  {
    assert Shaped(s);
    hide OrderlyDesk, ValidPlan, GoesOn, RecordsAfter, FateOf, Settled, Rebuilt, Reaches, Invalidates, Revised;
    hide Ready, Affected;
    CoherentThen(desk, p, q);
    RevisedLast(desk.records, p.effects);
    RevisedJoin(p.effects, q.effects);
    var first, second := Revised(p.effects), Revised(q.effects);
    var start := desk.records;
    forall j | k <= j < |s.plan| && !FateOf(s, j).Kept? ensures Rebuilt(start, first + second, 0, j, Settled(s, j)) {
      if j == k {
        RebuiltFirst(start, first, second, 0, k, Settled(s, k));
      } else {
        RebuiltSecond(start, first, second, 0, j, Settled(s, j));
        RebuiltSooner(start, first + second, |first|, 0, j, Settled(s, j));
      }
    }
    forall i: nat, x: nat, j: nat | Invalidates(start, first + second, i, x) && x < |s.plan| && Affected(s.plan, x, j)
      ensures j < |s.plan|
      ensures Rebuilt(start, first + second, i + 1, j, Settled(s, j))
    {
      AffectedMeans(s.plan, x, j);
      InvalidatesJoin(start, first, second, i, x);
      if i < |first| {
        AffectedIsNotKept(s, k, x, j);
        if j == k {
          RebuiltFirst(start, first, second, i + 1, k, Settled(s, k));
        } else {
          RebuiltSecond(start, first, second, 0, j, Settled(s, j));
          RebuiltSooner(start, first + second, |first|, i + 1, j, Settled(s, j));
        }
      } else {
        RebuiltSecond(start, first, second, i - |first| + 1, j, Settled(s, j));
      }
    }
  }

  lemma AffectedMeans(plan: seq<PlanStage>, x: nat, j: nat)
    requires x < |plan| && Affected(plan, x, j)
    ensures j < |plan|
  {
    hide Reaches;
  }

  // ------------------------------------------------------------------ whole sessions

  lemma ForcedAffects(s: Setting, x: nat, j: nat)
    requires Ready(s) && x < |s.plan| && IsForced(s, x) && Affected(s.plan, x, j)
    ensures j < |s.plan| && !FateOf(s, j).Kept?
  {
    if j != x {
      ForcedIsClosed(s.plan, s.start, s.selected, x, j);
    }
    hide Forced, OrderlyDesk, ValidPlan, Reaches, Struck;
  }

  /** What comes first may invalidate stages that are forced, for these are built later. */
  lemma ForcedFirst(s: Setting, start: seq<Record>, first: seq<seq<Record>>, second: seq<seq<Record>>)
    requires Ready(s) && AllGoOn(s) && NothingStale(s, 0, Before(start, first, |first|), second)
    requires forall i: nat, x: nat :: Invalidates(start, first, i, x) && x < |s.plan| ==> IsForced(s, x)
    ensures NothingStale(s, 0, start, first + second)
  {
    assert Shaped(s);
    forall j: nat | j < |s.plan| ensures GoesOn(s, j) {
      AllGoOnAt(s, j);
    }
    hide Ready, GoesOn, FateOf, Settled, Rebuilt, Reaches, Invalidates, Affected, IsForced, AllGoOn;
    forall j: nat | j < |s.plan| && !FateOf(s, j).Kept?
      ensures Rebuilt(start, first + second, |first|, j, Settled(s, j))
      ensures forall from: nat :: from <= |first| ==> Rebuilt(start, first + second, from, j, Settled(s, j))
    {
      RebuiltSecond(start, first, second, 0, j, Settled(s, j));
      forall from: nat | from <= |first| ensures Rebuilt(start, first + second, from, j, Settled(s, j)) {
        RebuiltSooner(start, first + second, |first|, from, j, Settled(s, j));
      }
    }
    forall i: nat, x: nat, j: nat | Invalidates(start, first + second, i, x) && x < |s.plan| && Affected(s.plan, x, j)
      ensures j < |s.plan|
      ensures Rebuilt(start, first + second, i + 1, j, Settled(s, j))
    {
      AffectedMeans(s.plan, x, j);
      InvalidatesJoin(start, first, second, i, x);
      if i < |first| {
        ForcedAffects(s, x, j);
      } else {
        RebuiltSecond(start, first, second, i - |first| + 1, j, Settled(s, j));
      }
    }
  }

  lemma SparedLast(s: Setting, start: seq<Record>, first: seq<seq<Record>>, second: seq<seq<Record>>)
    requires Ready(s) && AllGoOn(s) && NothingStale(s, 0, start, first)
    requires Spares(Before(start, first, |first|), second)
    ensures NothingStale(s, 0, start, first + second)
  {
    assert Shaped(s);
    forall j: nat | j < |s.plan| ensures GoesOn(s, j) {
      AllGoOnAt(s, j);
    }
    hide Ready, GoesOn, FateOf, Settled, Rebuilt, Reaches, Invalidates, AllGoOn, Affected;
    forall j: nat | j < |s.plan| && !FateOf(s, j).Kept?
      ensures Rebuilt(start, first + second, 0, j, Settled(s, j))
    {
      RebuiltFirst(start, first, second, 0, j, Settled(s, j));
    }
    forall i: nat, x: nat, j: nat | Invalidates(start, first + second, i, x) && x < |s.plan| && Affected(s.plan, x, j)
      ensures j < |s.plan|
      ensures Rebuilt(start, first + second, i + 1, j, Settled(s, j))
    {
      AffectedMeans(s.plan, x, j);
      InvalidatesJoin(start, first, second, i, x);
      assert i < |first|;
      RebuiltFirst(start, first, second, i + 1, j, Settled(s, j));
    }
  }

  lemma SameSpares(records: seq<Record>)
    ensures Spares(records, [records]) && Spares(records, [])
  {
  }

  lemma MarkStrikesForced(s: Setting, i: nat, x: nat)
    requires Ready(s) && x < |s.plan|
    requires Invalidates(s.start.records, Revised(MarkedPart(s).effects), i, x)
    ensures IsForced(s, x)
  {
    AlignedMeans(s.plan, s.start.records);
    hide Forced, OrderlyDesk, ValidPlan, MarkedRecord, Visible;
    var forced := Forced(s.plan, s.start.records, s.selected);
    var p := Marked(s.start, forced, s.script.damaged);
    if forced != {} {
      OneRevised(p.effects[0].step);
    }
  }

  lemma MarkCoherent(s: Setting)
    requires Ready(s)
    ensures Coherent(s.start, MarkedPart(s))
  {
    hide Forced, OrderlyDesk, ValidPlan;
    var forced := Forced(s.plan, s.start.records, s.selected);
    var p := Marked(s.start, forced, s.script.damaged);
    if forced == {} {
      NothingAfter(s.start.records);
    } else {
      OneAfter(s.start, p.effects[0].step, p.desk);
    }
  }

  lemma CompletingSpares(desk: Desk, ending: RunExecution.Ending)
    requires ending.EndCompletes? && ending.cancelledAfter.None?
    ensures var p := Ended(desk, ending);
      Revised(p.effects) == [desk.records] && p.end == Some(Finished)
  {
    OneRevised(Ended(desk, ending).effects[0].step);
  }

  /** In a session that runs through, every stage is kept or built, and nothing is stale. */
  lemma SessionRenews(s: Setting)
    requires Ready(s) && RunsThrough(s)
    ensures NothingStale(s, 0, s.start.records, Revised(PartOf(s).effects))
  {
    var marked := MarkedPart(s);
    MarkedDesk(s);
    assert AllGoOn(s);
    EnteringFits(s, 0, marked.desk, {});
    VisitsRenew(s, 0, marked.desk, {});
    MarkCoherent(s);
    forall i: nat, x: nat | Invalidates(s.start.records, Revised(marked.effects), i, x) && x < |s.plan|
      ensures IsForced(s, x)
    {
      MarkStrikesForced(s, i, x);
    }
    var visited := Onward(s, 0, marked.desk, {});
    PassesOn(s, marked.desk);
    PartUnfolds(s);
    var ended := EndedPart(s);
    CompletingSpares(visited.desk, s.script.ending);
    hide Ready, Onward, Coherent, MarkedPart, EndedPart, NothingStale, Revised, Invalidates, PartOf, AllGoOn, IsForced;
    SameSpares(visited.desk.records);
    CoherentMeans(marked.desk, visited);
    CoherentMeans(s.start, marked);
    RevisedJoin(marked.effects, visited.effects + ended.effects);
    RevisedJoin(visited.effects, ended.effects);
    SparedLast(s, marked.desk.records, Revised(visited.effects), Revised(ended.effects));
    ForcedFirst(s, s.start.records, Revised(marked.effects), Revised(visited.effects) + Revised(ended.effects));
  }

  lemma PassesOn(s: Setting, desk: Desk)
    requires Ready(s) && AllGoOn(s) && Entering(s, 0, desk, {})
    ensures Fits(desk) && |desk.records| == |s.plan| && Onward(s, 0, desk, {}).end.None?
  {
    EnteringFits(s, 0, desk, {});
    VisitsSettle(s, 0, desk, {});
  }

  /** A stage is kept only if everything it depends on is kept. */
  lemma KeptIsCurrent(s: Setting, k: nat, m: nat)
    requires Ready(s) && k < |s.plan| && m < |s.plan| && FateOf(s, k).Kept? && Reaches(s.plan, k, m)
    ensures FateOf(s, m).Kept?
  {
    assert Affected(s.plan, m, k);
    if IsForced(s, m) {
      ForcedAffects(s, m, k);
    } else {
      ReachesEarlier(s.plan, k, m);
      NoneIsMarked(s, k);
      hide Forced, OrderlyDesk, ValidPlan, IsForced;
      if FateOf(s, m).Root? {
        StruckIsNotKept(s, k);
      } else if FateOf(s, m).Dependent? {
        StruckAbove(s, m, k);
        StruckIsNotKept(s, k);
      }
    }
  }

  lemma StruckAbove(s: Setting, m: nat, k: nat)
    requires Shaped(s) && m < k < |s.plan| && Struck(s, m, m) && Reaches(s.plan, k, m)
    ensures Struck(s, k, k)
  {
    hide FateOf, Reaches;
    var r :| 0 <= r < m && FateOf(s, r).Root? && Reaches(s.plan, m, r);
    ReachesTransitive(s.plan, k, m, r);
  }
}
