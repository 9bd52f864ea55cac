/** What becomes of each stage in a session of src/run_v3.rs, told from the records and the
    checkpoint files that the session starts from. */
module RunFates {
  import opened PipelineGraph
  import opened RunExecution
  import opened RunJudgement
  import opened RunManifests
  import opened RunSafety
  import opened RunTrace
  import opened Wrappers

  datatype Setting = Setting(
    plan: seq<PlanStage>, start: Desk, resume: bool, selected: set<string>, script: Script)

  predicate Shaped(s: Setting) {
    |s.script.visits| == |s.plan| == |s.start.records| == |s.start.store|
  }

  ghost predicate Ready(s: Setting) {
    && Shaped(s) && ValidPlan(s.plan) && OrderlyDesk(s.plan, s.start)
    && (!s.resume ==> AllInState(s.start.records, Pending))
  }

  ghost predicate IsForced(s: Setting, k: nat)
    requires Shaped(s) && k < |s.plan|
  {
    s.plan[k].id in Forced(s.plan, s.start.records, s.selected)
  }

  /** Rebuilt on request, built for the first time, rebuilt since what it depends on is
      rebuilt, rebuilt since no checkpoint fits, or kept. */
  datatype Fate = Rerun | Fresh | Dependent | Root | Kept(digest: string)

  ghost function FateOf(s: Setting, k: nat): Fate
    requires Shaped(s) && k < |s.plan|
    decreases k, 1
  {
    if IsForced(s, k) then Rerun
    else if !s.resume then Fresh
    else if Struck(s, k, k) then Dependent
    else
      match FirstKept(s.script.visits[k].compatible, s.start.records[k].excluded, s.start.store[k])
      case Some(digest) => Kept(digest)
      case None => Root
  }

  /** A stage before `k` that has no fitting checkpoint, and that stage `j` depends on. */
  ghost predicate Struck(s: Setting, k: nat, j: nat)
    requires Shaped(s) && k <= |s.plan| && j < |s.plan|
    decreases k, 0
  {
    exists m :: 0 <= m < k && FateOf(s, m).Root? && Reaches(s.plan, j, m)
  }

  lemma StruckNext(s: Setting, k: nat, j: nat)
    requires Shaped(s) && k < |s.plan| && j < |s.plan|
    ensures Struck(s, k + 1, j) <==> Struck(s, k, j) || (FateOf(s, k).Root? && Reaches(s.plan, j, k))
  {
    hide FateOf, Reaches;
  }

  /** The record once requested reruns are marked. */
  ghost function Base(s: Setting, j: nat): Record
    requires Shaped(s) && j < |s.plan|
  {
    if IsForced(s, j) then MarkedRecord(s.start.records[j], Visible(s.start.store[j], s.script.damaged))
    else s.start.records[j]
  }

  /** The record of a later stage when stage `k` is visited: untouched, unless the stage was
      marked, or invalidated with one it depends on. */
  ghost function Expected(s: Setting, k: nat, j: nat): Record
    requires Shaped(s) && k <= |s.plan| && j < |s.plan|
  {
    if Struck(s, k, j) then InvalidatedRecord(Base(s, j), DEPENDENCY_DECISION) else Base(s, j)
  }

  /** The visit to stage `k` leaves the session going. */
  ghost predicate GoesOn(s: Setting, k: nat)
    requires Shaped(s) && k < |s.plan|
  {
    && !s.script.visits[k].cancelledBefore
    && (FateOf(s, k).Kept? || Smooth(s.script.visits[k].attempt, s.start.store[k]))
  }

  /** The record of a stage the session has left behind. */
  ghost function Settled(s: Setting, k: nat): Record
    requires Shaped(s) && k < |s.plan| && GoesOn(s, k)
  {
    var id := s.plan[k].id;
    match FateOf(s, k)
    case Kept(digest) => ReusedRecord(s.start.records[k], Reference(id, digest))
    case _ =>
      var a := s.script.visits[k].attempt;
      CompletedRecord(Base(s, k), Reference(id, a.digest), a.next.cacheMessage)
  }

  ghost function SettledFiles(s: Setting, k: nat): seq<string>
    requires Shaped(s) && k < |s.plan| && GoesOn(s, k)
  {
    if FateOf(s, k).Kept? then s.start.store[k] else s.start.store[k] + [s.script.visits[k].attempt.digest]
  }

  /** The stages before `k` are settled, and the others are as expected. */
  ghost predicate Entering(s: Setting, k: nat, desk: Desk, invalidated: set<string>)
    requires Shaped(s) && k <= |s.plan|
  {
    && |desk.records| == |desk.store| == |s.plan|
    && (forall j :: 0 <= j < k ==>
          GoesOn(s, j) && desk.records[j] == Settled(s, j) && desk.store[j] == SettledFiles(s, j))
    && (forall j :: k <= j < |s.plan| ==>
          desk.records[j] == Expected(s, k, j) && desk.store[j] == s.start.store[j])
    && (forall j :: k <= j < |s.plan| ==> (s.plan[j].id in invalidated <==> Struck(s, k, j)))
  }

  // --------------------------------------------------------------------- what is kept

  lemma NoneStruckAtFirst(s: Setting, j: nat)
    requires Shaped(s) && j < |s.plan|
    ensures !Struck(s, 0, j) && Expected(s, 0, j) == Base(s, j)
  {
  }

  lemma MarkedDesk(s: Setting)
    requires Ready(s)
    ensures var p := Marked(s.start, Forced(s.plan, s.start.records, s.selected), s.script.damaged);
      p.end.None? && |p.desk.records| == |s.plan| && Entering(s, 0, p.desk, {})
  {
    AlignedMeans(s.plan, s.start.records);
    hide ValidPlan, OrderlyDesk, Forced, Visible, Struck, MarkedRecord, Expected, FateOf;
    forall j | 0 <= j < |s.plan| ensures !Struck(s, 0, j) && Expected(s, 0, j) == Base(s, j) {
      NoneStruckAtFirst(s, j);
    }
  }

  /** What a build that completes does. */
  function BuildEffects(desk: Desk, k: nat, a: Attempt): seq<Effect>
    requires k < |desk.records| && a.Publishes? && a.next.Completes?
  {
    var r := desk.records[k];
    var done := CompletedRecord(r, Reference(r.stageId, a.digest), a.next.cacheMessage);
    [Revise(Step(Starting(k), RunState.Running, desk.records[k := StartedRecord(r)], [], None, None)),
     Revise(Step(Checking(k), RunState.Running, desk.records[k := StartedRecord(r).(state := Validating)], [],
                 None, None)),
     Publish(k, a.digest),
     Revise(Step(Accepting(k), RunState.Running, desk.records[k := done], [], None, None))]
  }

  lemma BuildResult(desk: Desk, k: nat, a: Attempt)
    requires k < |desk.records| && Fits(desk)
    ensures var p := Build(desk, k, a);
      && (p.end.None? <==> Smooth(a, desk.store[k]))
      && (Smooth(a, desk.store[k]) ==>
            var r := desk.records[k];
            && p.effects == BuildEffects(desk, k, a)
            && p.desk.store == desk.store[k := desk.store[k] + [a.digest]]
            && p.desk.records
               == desk.records[k := CompletedRecord(r, Reference(r.stageId, a.digest), a.next.cacheMessage)])
  {
    if Smooth(a, desk.store[k]) {
      var r := desk.records[k];
      var one := desk.records[k := StartedRecord(r)];
      var two := desk.records[k := StartedRecord(r).(state := Validating)];
      assert one[k := one[k].(state := Validating)] == two;
      var done := CompletedRecord(r, Reference(r.stageId, a.digest), a.next.cacheMessage);
      assert two[k := done] == desk.records[k := done];
      assert CompletedRecord(two[k], Reference(two[k].stageId, a.digest), a.next.cacheMessage) == done;
    }
  }

  lemma ExpectedOf(s: Setting, k: nat, j: nat)
    requires Ready(s) && k <= |s.plan| && j < |s.plan|
    ensures var r := Expected(s, k, j);
      && r.stageId == s.plan[j].id
      && r.rerunRequired == IsForced(s, j)
      && r.excluded == Base(s, j).excluded
      && (IsForced(s, j) || Struck(s, k, j) ==> r.state.Invalidated?)
      && (!IsForced(s, j) && !Struck(s, k, j) ==> r == s.start.records[j])
  {
    AlignedMeans(s.plan, s.start.records);
    if s.start.records[j].rerunRequired {
      DueIsForced(s, j);
    }
    hide ValidPlan, OrderlyDesk, Forced, Visible, Struck, Merge;
  }

  lemma DueIsForced(s: Setting, j: nat)
    requires Ready(s) && j < |s.plan| && s.start.records[j].rerunRequired
    ensures IsForced(s, j)
  {
    AlignedMeans(s.plan, s.start.records);
    hide ValidPlan, OrderlyDesk, FrontierOf;
    assert s.start.records[j].stageId in Due(s.start.records);
  }

  lemma EnteringMeans(s: Setting, k: nat, desk: Desk, invalidated: set<string>)
    requires Ready(s) && k < |s.plan| && Entering(s, k, desk, invalidated)
    ensures Fits(desk) && |desk.records| == |s.plan| && desk.records[k].stageId == s.plan[k].id
    ensures desk.records[k] == Expected(s, k, k) && desk.store[k] == s.start.store[k]
    ensures s.plan[k].id in invalidated <==> Struck(s, k, k)
    ensures !IsForced(s, k) ==> desk.records[k].excluded == s.start.records[k].excluded
  {
    ExpectedOf(s, k, k);
    hide Expected, OrderlyDesk, ValidPlan, Struck, FateOf, Forced;
  }

  /** A visit to one stage leaves the next one as expected, or ends the session. */
  lemma VisitEnters(s: Setting, k: nat, desk: Desk, invalidated: set<string>)
    requires Ready(s) && k < |s.plan| && Entering(s, k, desk, invalidated)
    ensures Fits(desk) && |desk.records| == |s.plan|
    ensures var t := Visited(s.plan, desk, k, s.script.visits[k], Forced(s.plan, s.start.records, s.selected),
                             invalidated, s.resume);
      && (t.part.end.None? <==> GoesOn(s, k))
      && (GoesOn(s, k) ==> Entering(s, k + 1, t.part.desk, t.invalidated))
  {
    EnteringMeans(s, k, desk, invalidated);
    if !s.script.visits[k].cancelledBefore {
      match FateOf(s, k) {
        case Kept(digest) => KeptEnters(s, k, desk, invalidated);
        case Root => RootEnters(s, k, desk, invalidated);
        case _ => BuildEnters(s, k, desk, invalidated);
      }
    }
  }

  lemma SameStruck(s: Setting, k: nat)
    requires Shaped(s) && k < |s.plan| && !FateOf(s, k).Root?
    ensures forall j :: 0 <= j < |s.plan| ==> (Struck(s, k + 1, j) <==> Struck(s, k, j))
    ensures forall j :: 0 <= j < |s.plan| ==> Expected(s, k + 1, j) == Expected(s, k, j)
  {
    hide FateOf, Struck, Base, InvalidatedRecord;
    forall j | 0 <= j < |s.plan| ensures Struck(s, k + 1, j) <==> Struck(s, k, j) {
      StruckNext(s, k, j);
    }
  }

  lemma KeptEnters(s: Setting, k: nat, desk: Desk, invalidated: set<string>)
    requires Ready(s) && k < |s.plan| && Entering(s, k, desk, invalidated)
    requires FateOf(s, k).Kept? && !s.script.visits[k].cancelledBefore
    ensures Fits(desk) && |desk.records| == |s.plan|
    ensures var t := Visited(s.plan, desk, k, s.script.visits[k], Forced(s.plan, s.start.records, s.selected),
                             invalidated, s.resume);
      && t == Turn(Reused(desk, k, FateOf(s, k).digest), invalidated)
      && Entering(s, k + 1, t.part.desk, t.invalidated)
  {
    EnteringMeans(s, k, desk, invalidated);
    SameStruck(s, k);
    NoneIsMarked(s, k);
    var t := Visited(s.plan, desk, k, s.script.visits[k], Forced(s.plan, s.start.records, s.selected),
                     invalidated, s.resume);
    assert t == Turn(Reused(desk, k, FateOf(s, k).digest), invalidated);
    assert GoesOn(s, k);
    hide Struck, FateOf, Forced, OrderlyDesk, ValidPlan, Expected, FirstKept, Smooth, CompletedRecord;
  }

  /** A stage that is neither forced nor struck has its first record still. */
  lemma NoneIsMarked(s: Setting, k: nat)
    requires Ready(s) && k < |s.plan| && (FateOf(s, k).Kept? || FateOf(s, k).Root?)
    ensures s.resume && !IsForced(s, k) && !Struck(s, k, k) && Expected(s, k, k) == s.start.records[k]
  {
    hide Forced, Struck, OrderlyDesk, ValidPlan;
  }

  /** A stage whose fate is to be built is built. */
  lemma BuildTurn(s: Setting, k: nat, desk: Desk, invalidated: set<string>)
    requires Ready(s) && k < |s.plan| && Entering(s, k, desk, invalidated)
    requires !FateOf(s, k).Kept? && !FateOf(s, k).Root? && !s.script.visits[k].cancelledBefore
    ensures Fits(desk) && |desk.records| == |s.plan|
    ensures Visited(s.plan, desk, k, s.script.visits[k], Forced(s.plan, s.start.records, s.selected),
                    invalidated, s.resume)
            == Turn(Build(desk, k, s.script.visits[k].attempt), invalidated)
  {
    EnteringMeans(s, k, desk, invalidated);
    hide Build, Forced, OrderlyDesk, ValidPlan, Struck, Expected, FirstKept, Base;
  }

  lemma BuildEnters(s: Setting, k: nat, desk: Desk, invalidated: set<string>)
    requires Ready(s) && k < |s.plan| && Entering(s, k, desk, invalidated)
    requires !FateOf(s, k).Kept? && !FateOf(s, k).Root? && !s.script.visits[k].cancelledBefore
    ensures Fits(desk) && |desk.records| == |s.plan|
    ensures var t := Visited(s.plan, desk, k, s.script.visits[k], Forced(s.plan, s.start.records, s.selected),
                             invalidated, s.resume);
      && t == Turn(Build(desk, k, s.script.visits[k].attempt), invalidated)
      && (t.part.end.None? <==> GoesOn(s, k))
      && (GoesOn(s, k) ==> Entering(s, k + 1, t.part.desk, t.invalidated))
  {
    EnteringMeans(s, k, desk, invalidated);
    BuildTurn(s, k, desk, invalidated);
    SameStruck(s, k);
    ExpectedOf(s, k, k);
    BuildResult(desk, k, s.script.visits[k].attempt);
    hide Build, BuildEffects, Struck, Forced, OrderlyDesk, ValidPlan, Expected, FateOf, Smooth, Base, Visited;
    hide Settled;
    if GoesOn(s, k) {
      SettledBuilt(s, k, desk.records[k]);
    }
  }

  lemma RootEnters(s: Setting, k: nat, desk: Desk, invalidated: set<string>)
    requires Ready(s) && k < |s.plan| && Entering(s, k, desk, invalidated)
    requires FateOf(s, k).Root? && !s.script.visits[k].cancelledBefore
    ensures Fits(desk) && |desk.records| == |s.plan|
    ensures var visit := s.script.visits[k];
      var t := Visited(s.plan, desk, k, visit, Forced(s.plan, s.start.records, s.selected), invalidated, s.resume);
      var f := FrontierOf(s.plan, {s.plan[k].id});
      var cleared := Invalidation(f, k, visit.otherwise, desk, 0);
      && t == Turn(Then(cleared, Build(cleared.desk, k, visit.attempt)), invalidated + f)
      && (t.part.end.None? <==> GoesOn(s, k))
      && (GoesOn(s, k) ==> Entering(s, k + 1, t.part.desk, t.invalidated))
  {
    EnteringMeans(s, k, desk, invalidated);
    NoneIsMarked(s, k);
    var visit := s.script.visits[k];
    var f := FrontierOf(s.plan, {s.plan[k].id});
    var cleared := Invalidation(f, k, visit.otherwise, desk, 0);
    InvalidationResult(f, k, visit.otherwise, desk, 0);
    BuildResult(cleared.desk, k, visit.attempt);
    hide Build, BuildEffects, Struck, Forced, OrderlyDesk, ValidPlan, FirstKept, Smooth, FrontierOf, Invalidation;
    hide Expected;
    var t := Visited(s.plan, desk, k, visit, Forced(s.plan, s.start.records, s.selected), invalidated, s.resume);
    assert t == Turn(Then(cleared, Build(cleared.desk, k, visit.attempt)), invalidated + f);
    hide Visited, FateOf;
    if GoesOn(s, k) {
      ClearedIsExpected(s, k, desk, invalidated);
      SettledBuilt(s, k, cleared.desk.records[k]);
    }
  }

  lemma SettledBuilt(s: Setting, k: nat, r: Record)
    requires Ready(s) && k < |s.plan| && !FateOf(s, k).Kept? && GoesOn(s, k)
    requires r.stageId == s.plan[k].id && r.excluded == Base(s, k).excluded
    ensures var a := s.script.visits[k].attempt;
      Settled(s, k) == CompletedRecord(r, Reference(r.stageId, a.digest), a.next.cacheMessage)
  {
    AlignedMeans(s.plan, s.start.records);
    hide FateOf, Forced, OrderlyDesk, ValidPlan, GoesOn, Visible, Merge;
  }

  /** Invalidation leaves the later stages as expected. */
  lemma ClearedIsExpected(s: Setting, k: nat, desk: Desk, invalidated: set<string>)
    requires Ready(s) && k < |s.plan| && Entering(s, k, desk, invalidated) && FateOf(s, k).Root?
    ensures var f := FrontierOf(s.plan, {s.plan[k].id});
      var after := Invalidation(f, k, s.script.visits[k].otherwise, desk, 0).desk;
      && |after.records| == |desk.records| == |s.plan| && after.store == desk.store
      && after.records[k].stageId == s.plan[k].id && after.records[k].excluded == Base(s, k).excluded
      && (forall j :: 0 <= j < k ==> after.records[j] == desk.records[j])
      && (forall j :: k < j < |s.plan| ==> after.records[j] == Expected(s, k + 1, j))
      && (forall j :: k < j < |s.plan| ==> (s.plan[j].id in invalidated + f <==> Struck(s, k + 1, j)))
  {
    hide OrderlyDesk, Struck, Forced, FateOf, Settled, SettledFiles, GoesOn;
    var f := FrontierOf(s.plan, {s.plan[k].id});
    InvalidationResult(f, k, s.script.visits[k].otherwise, desk, 0);
    EnteringMeans(s, k, desk, invalidated);
    ExpectedOf(s, k, k);
    forall j | 0 <= j < |s.plan| ensures s.plan[j].id in f <==> j == k || Reaches(s.plan, j, k) {
      FrontierOfOne(s.plan, k, j);
    }
    FrontierIsFromRoot(s.plan, k);
    AlignedStays(s, k, desk, invalidated);
    forall j | k < j < |s.plan| ensures Struck(s, k + 1, j) <==> Struck(s, k, j) || s.plan[j].id in f {
      StruckNext(s, k, j);
    }
    hide FrontierOf, Invalidation, Base, ValidPlan;
  }

  lemma AlignedStays(s: Setting, k: nat, desk: Desk, invalidated: set<string>)
    requires Ready(s) && k <= |s.plan| && Entering(s, k, desk, invalidated)
    ensures |desk.records| == |s.plan|
    ensures forall j :: 0 <= j < |s.plan| ==> desk.records[j].stageId == s.plan[j].id
  {
    forall j | 0 <= j < |s.plan| ensures desk.records[j].stageId == s.plan[j].id {
      if j < k {
        SettledId(s, j);
      } else {
        ExpectedOf(s, k, j);
      }
    }
  }

  lemma SettledId(s: Setting, j: nat)
    requires Ready(s) && j < |s.plan| && GoesOn(s, j)
    ensures Settled(s, j).stageId == s.plan[j].id
  {
    AlignedMeans(s.plan, s.start.records);
    hide OrderlyDesk, ValidPlan, Forced, FateOf, GoesOn, Visible;
  }

  // ----------------------------------------------------------- which visits are refused

  /** Stage `j` waits for another reason than the one that the visit to stage `k` would
      record, and no rerun of it is due. */
  ghost predicate Balks(s: Setting, k: nat, j: nat)
    requires Shaped(s) && k < |s.plan| && j < |s.plan|
  {
    && (j == k || Reaches(s.plan, j, k)) && !IsForced(s, j) && !Struck(s, k, j)
    && Stuck(s.start.records[j], Why(k, j, s.script.visits[k].otherwise))
  }

  /** What the lifecycle rules refuse in the visit to stage `k`. */
  ghost predicate Refuses(s: Setting, k: nat, kind: Kind)
    requires Shaped(s) && k < |s.plan|
  {
    && !s.script.visits[k].cancelledBefore
    && match FateOf(s, k)
       case Kept(digest) =>
         && kind == Reusing(k) && s.start.records[k].state.Complete?
         && s.start.records[k].checkpoint != Some(Reference(s.plan[k].id, digest))
       case Root =>
         && kind.Invalidating? && kind.stage < |s.plan| && Balks(s, k, kind.stage)
         && forall j :: 0 <= j < kind.stage ==> !Balks(s, k, j)
       case Rerun => kind == LateCancelling(k) && Late(s.script.visits[k].attempt, s.start.store[k])
       case _ => false
  }

  ghost predicate Likely(c: Context, s: Setting) {
    && Speaks(c) && Plausible(c, |s.plan|, s.script) && AllValid(c, s.start.records)
    && (forall j :: 0 <= j < |s.start.records| ==> !s.start.records[j].state.Skipped?)
  }

  /** The run says that it is running, unless nothing has happened in a resumed session. */
  ghost predicate Warm(s: Setting, state: RunState, invalidated: set<string>) {
    state.Running? || (s.resume && Forced(s.plan, s.start.records, s.selected) == {} && invalidated == {})
  }

  lemma WarmAtBuild(s: Setting, k: nat, desk: Desk, state: RunState, invalidated: set<string>)
    requires Ready(s) && k < |s.plan| && Entering(s, k, desk, invalidated) && Warm(s, state, invalidated)
    requires !FateOf(s, k).Kept? && !FateOf(s, k).Root?
    ensures state.Running?
    ensures desk.records[k].state.Pending? || desk.records[k].state.Invalidated?
    ensures desk.records[k].rerunRequired <==> FateOf(s, k).Rerun?
  {
    EnteringMeans(s, k, desk, invalidated);
    ExpectedOf(s, k, k);
    hide Forced, Struck, OrderlyDesk, ValidPlan, Expected, Entering, FirstKept;
  }

  lemma ExpectedFits(s: Setting, k: nat, desk: Desk, invalidated: set<string>)
    requires Ready(s) && k < |s.plan| && Entering(s, k, desk, invalidated)
    ensures StageFits(desk.records[k], desk.store[k])
  {
    EnteringMeans(s, k, desk, invalidated);
    assert StageFits(s.start.records[k], s.start.store[k]) by {
      FitsAt(s.plan, s.start, k);
    }
    MarkedFits(s.start.records[k], s.start.store[k], s.script.damaged);
    hide Forced, Struck, OrderlyDesk, ValidPlan, Entering, MarkedRecord, Visible;
  }

  lemma FitsAt(plan: seq<PlanStage>, desk: Desk, k: nat)
    requires OrderlyDesk(plan, desk) && k < |desk.records|
    ensures |desk.records| == |desk.store| && StageFits(desk.records[k], desk.store[k])
  {
    hide DueClosed, Aligned, StageFits;
  }

  lemma JudgeKept(c: Context, s: Setting, k: nat, desk: Desk, state: RunState, invalidated: set<string>)
    requires Ready(s) && Likely(c, s) && k < |s.plan| && Entering(s, k, desk, invalidated)
    requires FateOf(s, k).Kept? && !s.script.visits[k].cancelledBefore && AllValid(c, desk.records)
    ensures var p := Reused(desk, k, FateOf(s, k).digest);
      && Coherent(desk, p) && StateAfter(state, p.effects) == RunState.Running
      && forall kind :: Judge(c, state, desk.records, p.effects) == Some(kind) <==> Refuses(s, k, kind)
  {
    EnteringMeans(s, k, desk, invalidated);
    ExpectedOf(s, k, k);
    NoneIsMarked(s, k);
    ExpectedFits(s, k, desk, invalidated);
    var digest := FateOf(s, k).digest;
    KeptMeans(s, k);
    hide FateOf, Forced, Struck, OrderlyDesk, ValidPlan, Entering, Judge, StateAfter, RecordsAfter, Coherent;
    hide ValidRecord, StageStep, Accepts, Expected, Plausible, Speaks;
    var r := desk.records[k];
    assert ValidRecord(c, r);
    var reference := Reference(r.stageId, digest);
    ReuseAccepted(c, r, reference);
    JudgeChange(c, state, desk, k, ReusedRecord(r, reference), Reusing(k), RunState.Running, None, None);
  }

  lemma KeptMeans(s: Setting, k: nat)
    requires Shaped(s) && k < |s.plan| && FateOf(s, k).Kept?
    ensures var digest := FateOf(s, k).digest;
      && digest in s.script.visits[k].compatible && digest !in s.start.records[k].excluded
      && digest in s.start.store[k]
  {
    hide Forced, Struck;
  }

  lemma JudgeBuilt(c: Context, s: Setting, k: nat, desk: Desk, state: RunState, invalidated: set<string>)
    requires Ready(s) && Likely(c, s) && k < |s.plan| && Entering(s, k, desk, invalidated)
    requires !FateOf(s, k).Kept? && !FateOf(s, k).Root? && !s.script.visits[k].cancelledBefore
    requires AllValid(c, desk.records) && Warm(s, state, invalidated)
    ensures Fits(desk)
    ensures var p := Build(desk, k, s.script.visits[k].attempt);
      && Coherent(desk, p) && (p.end.None? ==> StateAfter(state, p.effects) == RunState.Running)
      && forall kind :: Judge(c, state, desk.records, p.effects) == Some(kind) <==> Refuses(s, k, kind)
  {
    EnteringMeans(s, k, desk, invalidated);
    WarmAtBuild(s, k, desk, state, invalidated);
    ExpectedFits(s, k, desk, invalidated);
    assert PlausibleVisit(c, s.script.visits[k]);
    hide FateOf, Forced, Struck, OrderlyDesk, ValidPlan, Entering, Judge, StateAfter, RecordsAfter, Coherent;
    hide ValidRecord, Expected, Plausible, Speaks, PlausibleAttempt, Build, StageFits, Late, ValidDecision;
    JudgeBuild(c, desk, k, s.script.visits[k].attempt);
  }

  /** A stage is stuck when the session comes to it exactly if it was from the start. */
  lemma StuckAtStart(s: Setting, k: nat, desk: Desk, invalidated: set<string>, j: nat)
    requires Ready(s) && k < |s.plan| && Entering(s, k, desk, invalidated) && FateOf(s, k).Root? && j < |s.plan|
    ensures |desk.records| == |s.plan|
    ensures var f := FrontierOf(s.plan, {s.plan[k].id});
      desk.records[j].stageId in f && Stuck(desk.records[j], Why(k, j, s.script.visits[k].otherwise))
      <==> Balks(s, k, j)
  {
    FrontierOfOne(s.plan, k, j);
    AlignedStays(s, k, desk, invalidated);
    NoneIsMarked(s, k);
    if j < k {
      hide FateOf, Forced, Struck, OrderlyDesk, ValidPlan, Settled, Stuck, Base, FrontierOf, GoesOn;
      if Reaches(s.plan, j, k) {
        ReachesEarlier(s.plan, j, k);
      }
    } else {
      ExpectedOf(s, k, j);
      hide FateOf, Forced, Struck, OrderlyDesk, ValidPlan, Settled, Base, FrontierOf, GoesOn, SettledFiles;
    }
  }

  /** The first stage that balks is the one at which the frontier stops. */
  lemma FirstBalks(s: Setting, k: nat, desk: Desk, invalidated: set<string>)
    requires Ready(s) && k < |s.plan| && Entering(s, k, desk, invalidated) && FateOf(s, k).Root?
    requires !s.script.visits[k].cancelledBefore
    ensures |desk.records| == |s.plan|
    ensures var visit := s.script.visits[k];
      var r := FirstStuck(FrontierOf(s.plan, {s.plan[k].id}), k, visit.otherwise, desk.records, 0);
      forall kind :: Refuses(s, k, kind) <==> r.Some? && kind == Invalidating(r.value)
  {
    EnteringMeans(s, k, desk, invalidated);
    var f := FrontierOf(s.plan, {s.plan[k].id});
    var otherwise := s.script.visits[k].otherwise;
    forall j | 0 <= j < |s.plan|
      ensures desk.records[j].stageId in f && Stuck(desk.records[j], Why(k, j, otherwise)) <==> Balks(s, k, j)
    {
      StuckAtStart(s, k, desk, invalidated, j);
    }
    FirstStuckIsFirst(f, k, otherwise, desk.records, 0);
    hide FateOf, OrderlyDesk, ValidPlan, Entering, Stuck, FrontierOf, FirstStuck, Balks, Why;
  }

  lemma RootIsReady(c: Context, s: Setting, k: nat, desk: Desk, invalidated: set<string>)
    requires Ready(s) && Likely(c, s) && k < |s.plan| && Entering(s, k, desk, invalidated) && FateOf(s, k).Root?
    ensures Fits(desk) && k < |desk.records| && PlausibleVisit(c, s.script.visits[k])
    ensures var f := FrontierOf(s.plan, {s.plan[k].id});
      var after := Invalidation(f, k, s.script.visits[k].otherwise, desk, 0).desk;
      && desk.records[k].stageId in f && after.records[k].state.Invalidated? && !after.records[k].rerunRequired
      && StageFits(after.records[k], after.store[k])
  {
    EnteringMeans(s, k, desk, invalidated);
    ExpectedFits(s, k, desk, invalidated);
    ExpectedOf(s, k, k);
    NoneIsMarked(s, k);
    FrontierOfOne(s.plan, k, k);
    var f := FrontierOf(s.plan, {s.plan[k].id});
    InvalidationResult(f, k, s.script.visits[k].otherwise, desk, 0);
    hide FateOf, Forced, Struck, OrderlyDesk, ValidPlan, Entering, Expected, Speaks, PlausibleVisit, Invalidation;
    hide FrontierOf, PlausibleEnding;
  }

  lemma JudgeRoot(c: Context, s: Setting, k: nat, desk: Desk, state: RunState, invalidated: set<string>)
    requires Ready(s) && Likely(c, s) && k < |s.plan| && Entering(s, k, desk, invalidated)
    requires FateOf(s, k).Root? && !s.script.visits[k].cancelledBefore && AllValid(c, desk.records)
    ensures Fits(desk) && k < |desk.records|
    ensures var visit := s.script.visits[k];
      var cleared := Invalidation(FrontierOf(s.plan, {s.plan[k].id}), k, visit.otherwise, desk, 0);
      var p := Then(cleared, Build(cleared.desk, k, visit.attempt));
      var judged := Judge(c, state, desk.records, p.effects);
      && (forall kind :: judged == Some(kind) <==> Refuses(s, k, kind))
      && (judged.None? ==> Coherent(desk, p) && (p.end.None? ==> StateAfter(state, p.effects) == RunState.Running))
  {
    FirstBalks(s, k, desk, invalidated);
    RootIsReady(c, s, k, desk, invalidated);
    assert Speaks(c);
    hide Ready, Likely, Entering, Refuses, Judge, StateAfter, RecordsAfter, Coherent, FirstStuck, FrontierOf, Late;
    hide ValidRecord, PlausibleAttempt, Build, Speaks, ValidDecision, Invalidation, StageFits, Smooth, FateOf;
    var visit := s.script.visits[k];
    var f := FrontierOf(s.plan, {s.plan[k].id});
    var cleared := Invalidation(f, k, visit.otherwise, desk, 0);
    InvalidationResult(f, k, visit.otherwise, desk, 0);
    JudgeInvalidation(c, state, f, k, visit.otherwise, desk, 0);
    var build := Build(cleared.desk, k, visit.attempt);
    if Judge(c, state, desk.records, cleared.effects).None? {
      CoherentValid(c, state, desk, cleared);
      JudgeBuild(c, cleared.desk, k, visit.attempt);
      CoherentThen(desk, cleared, build);
    }
    JudgeThen(c, state, desk, cleared, build);
  }

  lemma WarmNext(s: Setting, invalidated: set<string>)
    ensures Warm(s, RunState.Running, invalidated)
  {
  }

  /** One visit is refused exactly as told from the start. */
  lemma JudgeVisit(c: Context, s: Setting, k: nat, desk: Desk, state: RunState, invalidated: set<string>)
    requires Ready(s) && Likely(c, s) && k < |s.plan| && Entering(s, k, desk, invalidated)
    requires AllValid(c, desk.records) && Warm(s, state, invalidated)
    ensures Fits(desk) && |desk.records| == |s.plan|
    ensures var forced := Forced(s.plan, s.start.records, s.selected);
      var p := Visited(s.plan, desk, k, s.script.visits[k], forced, invalidated, s.resume).part;
      var judged := Judge(c, state, desk.records, p.effects);
      && (forall kind :: judged == Some(kind) <==> Refuses(s, k, kind))
      && (judged.None? ==> Coherent(desk, p) && (p.end.None? ==> StateAfter(state, p.effects) == RunState.Running))
  {
    EnteringMeans(s, k, desk, invalidated);
    if s.script.visits[k].cancelledBefore {
      hide Judge, Coherent, Entering, Ready, Forced, StateAfter, ValidRecord;
      JudgeCancel(c, state, desk, CANCELLED_BEFORE);
    } else {
      match FateOf(s, k) {
        case Kept(digest) =>
          KeptEnters(s, k, desk, invalidated);
          JudgeKept(c, s, k, desk, state, invalidated);
        case Root =>
          RootEnters(s, k, desk, invalidated);
          JudgeRoot(c, s, k, desk, state, invalidated);
        case _ =>
          BuildEnters(s, k, desk, invalidated);
          JudgeBuilt(c, s, k, desk, state, invalidated);
      }
      hide Judge, Coherent, Entering, Ready, Forced, StateAfter, ValidRecord, FateOf, Refuses, Visited, Likely, Warm;
    }
  }

  // -------------------------------------------------------------------- whole sessions

  /** Every stage is settled. */
  ghost predicate AllSettled(s: Setting, desk: Desk)
    requires Shaped(s)
  {
    && |desk.records| == |desk.store| == |s.plan|
    && forall j :: 0 <= j < |s.plan| ==>
         GoesOn(s, j) && desk.records[j] == Settled(s, j) && desk.store[j] == SettledFiles(s, j)
  }

  /** The visit to stage `k`. */
  ghost function TurnOf(s: Setting, k: nat, desk: Desk, invalidated: set<string>): (t: Turn)
    requires Shaped(s) && k < |s.plan| == |desk.records| && Fits(desk)
    ensures SameSize(desk, t.part)
  {
    Visited(s.plan, desk, k, s.script.visits[k], Forced(s.plan, s.start.records, s.selected), invalidated, s.resume)
  }

  /** The loop over stages from `k` on. */
  ghost function Onward(s: Setting, k: nat, desk: Desk, invalidated: set<string>): (p: Part)
    requires Shaped(s) && k <= |s.plan| == |desk.records| && Fits(desk)
    ensures SameSize(desk, p)
  {
    Visits(s.plan, desk, k, s.script.visits, Forced(s.plan, s.start.records, s.selected), invalidated, s.resume)
  }

  lemma OnwardUnfolds(s: Setting, k: nat, desk: Desk, invalidated: set<string>)
    requires Shaped(s) && k < |s.plan| == |desk.records| && Fits(desk)
    ensures var t := TurnOf(s, k, desk, invalidated);
      Onward(s, k, desk, invalidated) == Then(t.part, Onward(s, k + 1, t.part.desk, t.invalidated))
  {
    hide Visited, Forced;
  }

  lemma OnwardEnds(s: Setting, desk: Desk, invalidated: set<string>)
    requires Shaped(s) && |s.plan| == |desk.records| && Fits(desk)
    ensures Onward(s, |s.plan|, desk, invalidated) == Idle(desk)
  {
  }

  lemma EnteringFits(s: Setting, k: nat, desk: Desk, invalidated: set<string>)
    requires Ready(s) && k <= |s.plan| && Entering(s, k, desk, invalidated)
    ensures Shaped(s) && Fits(desk) && |desk.records| == |s.plan|
  {
    hide OrderlyDesk, ValidPlan;
  }

  /** The loop over stages goes to its end exactly if every visit goes on, and settles all. */
  lemma {:induction false} VisitsSettle(s: Setting, k: nat, desk: Desk, invalidated: set<string>)
    requires Shaped(s) && |desk.records| == |s.plan| && Fits(desk)
    requires Ready(s) && k <= |s.plan| && Entering(s, k, desk, invalidated)
    ensures var p := Onward(s, k, desk, invalidated);
      && (p.end.None? <==> forall m :: k <= m < |s.plan| ==> GoesOn(s, m))
      && (p.end.None? ==> AllSettled(s, p.desk))
    decreases |s.plan| - k
  {
    hide Ready, TurnOf, Onward, GoesOn, Entering, AllSettled;
    if k == |s.plan| {
      OnwardEnds(s, desk, invalidated);
      EnteredIsSettled(s, desk, invalidated);
    } else {
      TurnEnters(s, k, desk, invalidated);
      var t := TurnOf(s, k, desk, invalidated);
      OnwardUnfolds(s, k, desk, invalidated);
      if GoesOn(s, k) {
        VisitsSettle(s, k + 1, t.part.desk, t.invalidated);
      }
    }
  }

  lemma EnteredIsSettled(s: Setting, desk: Desk, invalidated: set<string>)
    requires Shaped(s) && Entering(s, |s.plan|, desk, invalidated)
    ensures AllSettled(s, desk)
  {
  }

  lemma TurnEnters(s: Setting, k: nat, desk: Desk, invalidated: set<string>)
    requires Ready(s) && k < |s.plan| && Entering(s, k, desk, invalidated)
    ensures Fits(desk) && |desk.records| == |s.plan|
    ensures var t := TurnOf(s, k, desk, invalidated);
      && (t.part.end.None? <==> GoesOn(s, k))
      && (GoesOn(s, k) ==> Entering(s, k + 1, t.part.desk, t.invalidated))
  {
    VisitEnters(s, k, desk, invalidated);
  }

  function EndOfStop(stop: Stop): End {
    if stop.cancelled then End.Cancelled else End.Failed
  }

  function EndOf(stop: Option<Stop>): Option<End> {
    if stop.Some? then Some(EndOfStop(stop.value)) else None
  }

  /** What stops a build, if anything does. */
  function AttemptStop(a: Attempt, files: seq<string>): Option<Stop> {
    match a
    case StopsAtInputs(stop) => Some(stop)
    case StopsRunning(stop) => Some(stop)
    case StopsValidating(stop) => Some(stop)
    case Publishes(digest, collision, next) =>
      if digest in files then Some(collision)
      else
        match next
        case StopsPublished(stop) => Some(stop)
        case CancelledLate(message) => Some(Stop(true, message))
        case Completes(_, after) => if after.Some? then Some(Stop(true, after.value)) else None
  }

  /** What stops the session at a visit, if anything does. */
  ghost function VisitStop(s: Setting, k: nat): Option<Stop>
    requires Shaped(s) && k < |s.plan|
  {
    if s.script.visits[k].cancelledBefore then Some(Stop(true, "cancellation requested before provider execution"))
    else if FateOf(s, k).Kept? then None
    else AttemptStop(s.script.visits[k].attempt, s.start.store[k])
  }

  /** What stops the session at its visits from the `k`-th on. */
  ghost function StopFrom(s: Setting, k: nat): Option<Stop>
    requires Shaped(s) && k <= |s.plan|
    decreases |s.plan| - k
  {
    if k == |s.plan| then None
    else if VisitStop(s, k).Some? then VisitStop(s, k)
    else StopFrom(s, k + 1)
  }

  function EndingStop(ending: RunExecution.Ending): Option<Stop> {
    match ending
    case EndFails(message) => Some(Stop(false, message))
    case EndCancelled(message) => Some(Stop(true, message))
    case EndCompletes(_, _, after) => if after.Some? then Some(Stop(true, after.value)) else None
  }

  /** What stops the session, short of being refused: the first visit that does, or its
      ending; and nothing if it completes the run. */
  ghost function SessionStop(s: Setting): Option<Stop>
    requires Shaped(s)
  {
    if StopFrom(s, 0).Some? then StopFrom(s, 0) else EndingStop(s.script.ending)
  }

  ghost function SessionEnd(s: Setting): End
    requires Shaped(s)
  {
    if SessionStop(s).Some? then EndOfStop(SessionStop(s).value) else Finished
  }

  /** The last thing that a part does is to record that the run stopped, and why. */
  predicate Records(p: Part, stop: Stop) {
    && p.effects != [] && p.effects[|p.effects| - 1].Revise?
    && var s := p.effects[|p.effects| - 1].step;
       && s.state == (if stop.cancelled then RunState.Cancelled else RunState.Failed)
       && s.outputs == [] && s.delivery == None && s.diagnostic == Some(stop.message)
  }

  /** A part that ends as it is told, and says so last. */
  predicate EndsWith(p: Part, stop: Option<Stop>) {
    p.end == EndOf(stop) && (stop.Some? ==> Records(p, stop.value))
  }

  lemma EndsThen(p: Part, q: Part, first: Option<Stop>, second: Option<Stop>)
    requires EndsWith(p, first) && (first.None? ==> EndsWith(q, second))
    ensures EndsWith(Then(p, q), if first.Some? then first else second)
  {
  }

  lemma StopEnds(desk: Desk, k: nat, stop: Stop)
    requires k < |desk.records|
    ensures EndsWith(StopAt(desk, k, stop), Some(stop))
  {
  }

  lemma CancelEnds(desk: Desk, message: string)
    ensures EndsWith(CancelBetween(desk, message), Some(Stop(true, message)))
  {
  }

  lemma AfterPublishedEnds(desk: Desk, k: nat, digest: string, collision: Stop, next: AfterPublication)
    requires k < |desk.records|
    ensures EndsWith(AfterPublished(desk, k, digest, next), AttemptStop(Publishes(digest, collision, next), []))
  {
    if next.StopsPublished? {
      StopEnds(desk, k, next.stop);
    } else if next.Completes? {
      var done := Accepted(desk, k, digest, next.cacheMessage);
      if next.cancelledAfter.Some? {
        CancelEnds(done.desk, next.cancelledAfter.value);
        EndsThen(done, CancelBetween(done.desk, next.cancelledAfter.value), None,
                 Some(Stop(true, next.cancelledAfter.value)));
      }
    }
  }

  lemma BuildEnds(desk: Desk, k: nat, a: Attempt)
    requires k < |desk.records| && Fits(desk)
    ensures EndsWith(Build(desk, k, a), AttemptStop(a, desk.store[k]))
  {
    hide EndsWith, StopAt, AfterPublished;
    var started := Started(desk, k);
    var checked := Checked(started.desk, k);
    assert EndsWith(started, None) && EndsWith(checked, None) by { ChangesEnd(desk, k); }
    var stop := AttemptStop(a, desk.store[k]);
    match a {
      case StopsAtInputs(stop) => StopEnds(desk, k, stop);
      case StopsRunning(stop) => StopEnds(started.desk, k, stop);
      case StopsValidating(stop) => StopEnds(checked.desk, k, stop);
      case Publishes(digest, collision, next) => PublishedEnds(checked.desk, k, digest, collision, next);
    }
    if !a.StopsAtInputs? {
      if !a.StopsRunning? {
        EndsThen(checked, BuildChecked(checked.desk, k, a), None, stop);
      }
      EndsThen(started, BuildRest(started.desk, k, a), None, stop);
    }
  }

  lemma ChangesEnd(desk: Desk, k: nat)
    requires k < |desk.records|
    ensures EndsWith(Started(desk, k), None) && EndsWith(Checked(Started(desk, k).desk, k), None)
  {
  }

  lemma PublishedEnds(desk: Desk, k: nat, digest: string, collision: Stop, next: AfterPublication)
    requires k < |desk.records| && Fits(desk)
    ensures EndsWith(Published(desk, k, digest, collision, next),
                     AttemptStop(Publishes(digest, collision, next), desk.store[k]))
  {
    hide StopAt, AfterPublished, Records;
    if digest in desk.store[k] {
      StopEnds(desk, k, collision);
    } else {
      var kept := desk.(store := desk.store[k := desk.store[k] + [digest]]);
      AfterPublishedEnds(kept, k, digest, collision, next);
      EndsThen(Part([Publish(k, digest)], kept, None), AfterPublished(kept, k, digest, next), None,
               AttemptStop(Publishes(digest, collision, next), []));
    }
  }

  lemma EndedEnds(desk: Desk, ending: RunExecution.Ending)
    ensures EndingStop(ending).Some? ==> EndsWith(Ended(desk, ending), EndingStop(ending))
    ensures EndingStop(ending).None? ==>
      && ending.EndCompletes?
      && Ended(desk, ending).end == Some(Finished) && |Ended(desk, ending).effects| == 1
      && Ended(desk, ending).effects[0].Revise?
      && var s := Ended(desk, ending).effects[0].step;
         && s.state == RunState.Complete && s.outputs == ending.outputs
         && s.delivery == Some(ending.delivery) && s.diagnostic == None && s.stages == desk.records
  {
  }

  lemma TurnEnds(s: Setting, k: nat, desk: Desk, invalidated: set<string>)
    requires Ready(s) && k < |s.plan| && Entering(s, k, desk, invalidated)
    ensures Fits(desk) && |desk.records| == |s.plan|
    ensures EndsWith(TurnOf(s, k, desk, invalidated).part, VisitStop(s, k))
  {
    EnteringMeans(s, k, desk, invalidated);
    var visit := s.script.visits[k];
    if visit.cancelledBefore {
      CancelEnds(desk, CANCELLED_BEFORE);
    } else {
      match FateOf(s, k) {
        case Kept(digest) =>
          KeptEnters(s, k, desk, invalidated);
        case Root =>
          RootEnters(s, k, desk, invalidated);
          var f := FrontierOf(s.plan, {s.plan[k].id});
          var cleared := Invalidation(f, k, visit.otherwise, desk, 0);
          InvalidationResult(f, k, visit.otherwise, desk, 0);
          BuildEnds(cleared.desk, k, visit.attempt);
          EndsThen(cleared, Build(cleared.desk, k, visit.attempt), None, VisitStop(s, k));
        case _ =>
          BuildEnters(s, k, desk, invalidated);
          BuildEnds(desk, k, visit.attempt);
      }
      hide Build, AttemptStop, Invalidation, FrontierOf, Ready, Entering, FateOf, Visited, Records;
    }
  }

  lemma {:induction false} VisitsEndAsTold(s: Setting, k: nat, desk: Desk, invalidated: set<string>)
    requires Shaped(s) && |desk.records| == |s.plan| && Fits(desk)
    requires Ready(s) && k <= |s.plan| && Entering(s, k, desk, invalidated)
    ensures EndsWith(Onward(s, k, desk, invalidated), StopFrom(s, k))
    decreases |s.plan| - k
  {
    hide Ready, TurnOf, Onward, GoesOn, Entering, VisitStop, Records;
    if k == |s.plan| {
      OnwardEnds(s, desk, invalidated);
    } else {
      TurnEnters(s, k, desk, invalidated);
      TurnEnds(s, k, desk, invalidated);
      OnwardUnfolds(s, k, desk, invalidated);
      var t := TurnOf(s, k, desk, invalidated);
      var rest := Onward(s, k + 1, t.part.desk, t.invalidated);
      if GoesOn(s, k) {
        VisitsEndAsTold(s, k + 1, t.part.desk, t.invalidated);
      }
      EndsThen(t.part, rest, VisitStop(s, k), StopFrom(s, k + 1));
    }
  }

  /** The visit is neither the session's last nor refused. */
  ghost predicate Passed(s: Setting, k: nat)
    requires Shaped(s) && k < |s.plan|
  {
    GoesOn(s, k) && forall kind :: !Refuses(s, k, kind)
  }

  ghost predicate MetFrom(s: Setting, k: nat, m: nat)
    requires Shaped(s) && m <= |s.plan|
  {
    forall i :: k <= i < m ==> Passed(s, i)
  }

  ghost predicate RefusedFrom(s: Setting, k: nat, kind: Kind)
    requires Shaped(s)
  {
    exists m :: k <= m < |s.plan| && MetFrom(s, k, m) && Refuses(s, m, kind)
  }

  lemma RefusedNext(s: Setting, k: nat, kind: Kind)
    requires Shaped(s) && k < |s.plan|
    ensures RefusedFrom(s, k, kind) <==> Refuses(s, k, kind) || (Passed(s, k) && RefusedFrom(s, k + 1, kind))
  {
    hide Refuses, Passed;
    if Refuses(s, k, kind) {
      assert MetFrom(s, k, k);
    }
    if Passed(s, k) && RefusedFrom(s, k + 1, kind) {
      var m :| k + 1 <= m < |s.plan| && MetFrom(s, k + 1, m) && Refuses(s, m, kind);
      assert MetFrom(s, k, m);
    }
    if RefusedFrom(s, k, kind) && !Refuses(s, k, kind) {
      var m :| k <= m < |s.plan| && MetFrom(s, k, m) && Refuses(s, m, kind);
      assert Passed(s, k) && MetFrom(s, k + 1, m);
    }
  }

  /** What is refused in a part that takes up stage `k`, and what the part leaves if nothing is. */
  ghost predicate Judged(c: Context, s: Setting, k: nat, state: RunState, desk: Desk, p: Part)
    requires Shaped(s)
  {
    var judged := Judge(c, state, desk.records, p.effects);
    && (forall kind :: judged == Some(kind) <==> RefusedFrom(s, k, kind))
    && (judged.None? ==>
          && Coherent(desk, p) && AllValid(c, p.desk.records)
          && (p.end.None? && k < |s.plan| ==> StateAfter(state, p.effects) == RunState.Running))
  }

  ghost predicate StaysRunning(c: Context, desk: Desk, p: Part) {
    Judge(c, RunState.Running, desk.records, p.effects).None? && p.end.None? ==>
      StateAfter(RunState.Running, p.effects) == RunState.Running
  }

  lemma JudgedThen(c: Context, s: Setting, k: nat, state: RunState, desk: Desk, p: Part, q: Part)
    requires Shaped(s) && k < |s.plan| && AllValid(c, desk.records) && (p.end.None? <==> GoesOn(s, k))
    requires forall kind :: Judge(c, state, desk.records, p.effects) == Some(kind) <==> Refuses(s, k, kind)
    requires Judge(c, state, desk.records, p.effects).None? ==>
      Coherent(desk, p) && (p.end.None? ==> StateAfter(state, p.effects) == RunState.Running)
    requires Judge(c, state, desk.records, p.effects).None? && p.end.None? ==>
      && Judged(c, s, k + 1, RunState.Running, p.desk, q)
      && StaysRunning(c, p.desk, q)
    ensures Judged(c, s, k, state, desk, Then(p, q))
  {
    hide Judge, StateAfter, RecordsAfter, Coherent, Refuses, GoesOn, AllValid, RefusedFrom, Passed;
    var judged := Judge(c, state, desk.records, p.effects);
    PassedMeans(s, k, judged);
    forall kind
      ensures RefusedFrom(s, k, kind) <==> Refuses(s, k, kind) || (Passed(s, k) && RefusedFrom(s, k + 1, kind))
    {
      RefusedNext(s, k, kind);
    }
    JudgeThen(c, state, desk, p, q);
    if judged.None? {
      JudgedAllValid(c, state, desk, p);
      if p.end.None? && Judge(c, RunState.Running, p.desk.records, q.effects).None? {
        CoherentThen(desk, p, q);
      }
    }
  }

  /** The loop over stages is refused exactly at a visit that it meets and that is refused. */
  lemma {:induction false} JudgeVisits(c: Context, s: Setting, k: nat, desk: Desk, state: RunState,
                                       invalidated: set<string>)
    requires Shaped(s) && |desk.records| == |s.plan| && Fits(desk)
    requires Ready(s) && Likely(c, s) && k <= |s.plan| && Entering(s, k, desk, invalidated)
    requires AllValid(c, desk.records) && Warm(s, state, invalidated)
    ensures var p := Onward(s, k, desk, invalidated);
      && Judged(c, s, k, state, desk, p)
      && (k == |s.plan| ==> StateAfter(state, p.effects) == state)
    decreases |s.plan| - k
  {
    hide Ready, Onward, TurnOf, GoesOn, Judge, StateAfter, Coherent, Refuses, AllValid, Entering, Likely, Warm, Judged;
    hide StaysRunning;
    if k == |s.plan| {
      OnwardIsJudged(c, s, desk, state, invalidated);
    } else {
      TurnIsJudged(c, s, k, desk, state, invalidated);
      OnwardUnfolds(s, k, desk, invalidated);
      var t := TurnOf(s, k, desk, invalidated);
      var rest := Onward(s, k + 1, t.part.desk, t.invalidated);
      if Judge(c, state, desk.records, t.part.effects).None? && t.part.end.None? {
        JudgedAllValid(c, state, desk, t.part);
        WarmNext(s, t.invalidated);
        JudgeVisits(c, s, k + 1, t.part.desk, RunState.Running, t.invalidated);
        JudgedRuns(c, s, k + 1, t.part.desk, rest);
      }
      JudgedThen(c, s, k, state, desk, t.part, rest);
    }
  }

  lemma OnwardIsJudged(c: Context, s: Setting, desk: Desk, state: RunState, invalidated: set<string>)
    requires Shaped(s) && |desk.records| == |s.plan| && Fits(desk) && AllValid(c, desk.records)
    ensures var p := Onward(s, |s.plan|, desk, invalidated);
      Judged(c, s, |s.plan|, state, desk, p) && StateAfter(state, p.effects) == state
  {
    hide Onward, Judge, StateAfter, Coherent, Refuses, AllValid, RefusedFrom;
    OnwardEnds(s, desk, invalidated);
    NoneRefusedAfter(s);
    JudgeIdle(c, state, desk);
  }

  lemma TurnIsJudged(c: Context, s: Setting, k: nat, desk: Desk, state: RunState, invalidated: set<string>)
    requires Ready(s) && Likely(c, s) && k < |s.plan| && Entering(s, k, desk, invalidated)
    requires AllValid(c, desk.records) && Warm(s, state, invalidated)
    ensures Fits(desk) && |desk.records| == |s.plan|
    ensures var t := TurnOf(s, k, desk, invalidated);
      var judged := Judge(c, state, desk.records, t.part.effects);
      && (t.part.end.None? <==> GoesOn(s, k))
      && (GoesOn(s, k) ==> Entering(s, k + 1, t.part.desk, t.invalidated))
      && (forall kind :: judged == Some(kind) <==> Refuses(s, k, kind))
      && (judged.None? ==>
            && Coherent(desk, t.part)
            && (t.part.end.None? ==> StateAfter(state, t.part.effects) == RunState.Running))
  {
    EnteringFits(s, k, desk, invalidated);
    hide Ready, Visited, GoesOn, Judge, StateAfter, Coherent, Refuses, AllValid, Entering, Likely, Warm, Forced;
    VisitEnters(s, k, desk, invalidated);
    JudgeVisit(c, s, k, desk, state, invalidated);
  }

  lemma JudgedRuns(c: Context, s: Setting, k: nat, desk: Desk, p: Part)
    requires Shaped(s) && k <= |s.plan| && Judged(c, s, k, RunState.Running, desk, p)
    requires k == |s.plan| ==> StateAfter(RunState.Running, p.effects) == RunState.Running
    ensures StaysRunning(c, desk, p)
  {
    hide Judge, StateAfter, Coherent, AllValid, RefusedFrom;
  }

  lemma PassedMeans(s: Setting, k: nat, judged: Option<Kind>)
    requires Shaped(s) && k < |s.plan| && forall kind :: judged == Some(kind) <==> Refuses(s, k, kind)
    ensures Passed(s, k) <==> GoesOn(s, k) && judged.None?
  {
    hide Refuses, GoesOn;
    if judged.Some? {
      assert Refuses(s, k, judged.value);
    }
  }

  lemma JudgedAllValid(c: Context, state: RunState, desk: Desk, p: Part)
    requires AllValid(c, desk.records) && Judge(c, state, desk.records, p.effects).None? && Coherent(desk, p)
    ensures AllValid(c, p.desk.records)
  {
    hide Judge, RecordsAfter, ValidRecord;
    JudgedValid(c, state, desk.records, p.effects);
  }

  lemma NoneRefusedAfter(s: Setting)
    requires Shaped(s)
    ensures forall kind :: !RefusedFrom(s, |s.plan|, kind)
  {
  }

  /** Marking is refused nowhere. */
  lemma JudgeMarked(c: Context, s: Setting, state: RunState)
    requires Ready(s) && Likely(c, s)
    ensures var forced := Forced(s.plan, s.start.records, s.selected);
      var p := Marked(s.start, forced, s.script.damaged);
      && Judge(c, state, s.start.records, p.effects).None? && Coherent(s.start, p) && AllValid(c, p.desk.records)
      && (forced != {} ==> StateAfter(state, p.effects) == RunState.Running)
      && (forced == {} ==> StateAfter(state, p.effects) == state)
  {
    var forced := Forced(s.plan, s.start.records, s.selected);
    var records := MarkRecords(s.start, forced, s.script.damaged);
    hide OrderlyDesk, ValidPlan, Forced, Judge, StateAfter, RecordsAfter, Coherent, ValidRecord, StageStep;
    hide Plausible, Speaks;
    if forced == {} {
      JudgeIdle(c, state, s.start);
    } else {
      MarkIsLegal(c, s, forced);
      JudgeOne(c, state, s.start, Step(Marking, RunState.Running, records, [], None, None),
               s.start.(records := records), None);
    }
  }

  lemma MarkIsLegal(c: Context, s: Setting, forced: set<string>)
    requires Shaped(s) && Likely(c, s)
    ensures var records := MarkRecords(s.start, forced, s.script.damaged);
      AllValid(c, records) && StagesStep(s.start.records, records)
  {
    hide ValidRecord, StageStep, Plausible, Speaks, MarkedRecord, IsRerunMark, Visible;
    var records := MarkRecords(s.start, forced, s.script.damaged);
    forall j | 0 <= j < |records|
      ensures ValidRecord(c, records[j])
      ensures records[j] != s.start.records[j] ==> StageStep(s.start.records[j], records[j]) && IsRerunMark(records[j])
    {
      MarkAccepted(c, s.start.records[j], Visible(s.start.store[j], s.script.damaged));
    }
  }

  /** The end is refused nowhere. */
  lemma JudgeEnded(c: Context, desk: Desk, ending: RunExecution.Ending)
    requires AllValid(c, desk.records)
    ensures var p := Ended(desk, ending);
      Judge(c, RunState.Running, desk.records, p.effects).None? && Coherent(desk, p) && p.end.Some?
    ensures Ended(desk, ending).end == Some(Finished) <==> ending.EndCompletes? && ending.cancelledAfter.None?
  {
    hide Judge, StateAfter, RecordsAfter, Coherent, ValidRecord;
    match ending {
      case EndFails(message) =>
        JudgeNote(c, RunState.Running, desk,
                  Step(Kind.Ending, RunState.Failed, desk.records, [], None, Some(message)), Some(End.Failed));
      case EndCancelled(message) =>
        JudgeCancel(c, RunState.Running, desk, message);
      case EndCompletes(outputs, delivery, cancelledAfter) =>
        var last := Step(Kind.Ending, RunState.Complete, desk.records, outputs, Some(delivery), None);
        JudgeNote(c, RunState.Running, desk, last, Some(Finished));
        JudgeNote(c, RunState.Running, desk, last, None);
        if cancelledAfter.Some? {
          JudgeCancel(c, RunState.Complete, desk, cancelledAfter.value);
          var cancel := CancelBetween(desk, cancelledAfter.value);
          JudgeThen(c, RunState.Running, desk, Part([Revise(last)], desk, None), cancel);
          CoherentThen(desk, Part([Revise(last)], desk, None), cancel);
        }
    }
  }

  ghost function PartOf(s: Setting): Part
    requires Shaped(s)
  {
    SessionPart(s.plan, s.start, s.resume, s.selected, s.script)
  }

  /** Short of being refused, the session completes the run. */
  ghost predicate RunsThrough(s: Setting)
    requires Shaped(s)
  {
    && (forall k :: 0 <= k < |s.plan| ==> GoesOn(s, k))
    && s.script.ending.EndCompletes? && s.script.ending.cancelledAfter.None?
  }

  ghost function MarkedPart(s: Setting): (p: Part)
    requires Shaped(s)
    ensures SameSize(s.start, p)
  {
    Marked(s.start, Forced(s.plan, s.start.records, s.selected), s.script.damaged)
  }

  ghost function EndedPart(s: Setting): Part
    requires Shaped(s)
  {
    Ended(Onward(s, 0, MarkedPart(s).desk, {}).desk, s.script.ending)
  }

  /** A session marks, visits and ends. */
  lemma PartUnfolds(s: Setting)
    requires Shaped(s)
    ensures PartOf(s) == Then(MarkedPart(s), Then(Onward(s, 0, MarkedPart(s).desk, {}), EndedPart(s)))
  {
    hide Forced, Visits, Marked, Ended;
  }

  lemma MarkedEnters(s: Setting)
    requires Ready(s)
    ensures var p := MarkedPart(s);
      p.end.None? && |p.desk.records| == |s.plan| && Fits(p.desk) && Entering(s, 0, p.desk, {})
  {
    MarkedDesk(s);
    hide OrderlyDesk, ValidPlan, Forced;
  }

  /** The last thing that a session does is to record how it ended: what stopped it, or the
      complete run with its outputs and its delivery. */
  ghost predicate Closes(s: Setting, p: Part)
    requires Shaped(s)
  {
    if SessionStop(s).Some? then EndsWith(p, SessionStop(s))
    else
      && p.end == Some(Finished) && p.effects != [] && p.effects[|p.effects| - 1].Revise?
      && s.script.ending.EndCompletes?
      && var last := p.effects[|p.effects| - 1].step;
         && last.state == RunState.Complete && last.outputs == s.script.ending.outputs
         && last.delivery == Some(s.script.ending.delivery) && last.diagnostic == None
  }

  lemma ClosesThen(s: Setting, p: Part, q: Part)
    requires Shaped(s) && p.end.None? && Closes(s, q)
    ensures Closes(s, Then(p, q))
  {
    hide SessionStop;
  }

  /** A session ends at the first visit that ends it, or as its ending says; with a complete
      run exactly if every visit goes on and the ending completes; then every stage is settled. */
  lemma SessionSettles(s: Setting)
    requires Ready(s)
    ensures PartOf(s).end == Some(SessionEnd(s)) && Closes(s, PartOf(s))
    ensures SessionEnd(s) == Finished <==> RunsThrough(s)
    ensures (forall k :: 0 <= k < |s.plan| ==> GoesOn(s, k)) ==> AllSettled(s, PartOf(s).desk)
  {
    assert Shaped(s);
    MarkedEnters(s);
    hide Ready, Onward, MarkedPart, PartOf, GoesOn, AllSettled, Entering, StopFrom, Ended, Records;
    var marked := MarkedPart(s);
    PartUnfolds(s);
    var visited := Onward(s, 0, marked.desk, {});
    VisitsSettle(s, 0, marked.desk, {});
    VisitsEndAsTold(s, 0, marked.desk, {});
    EndedEnds(visited.desk, s.script.ending);
    EndedKeeps(visited.desk, s.script.ending);
    var ended := EndedPart(s);
    SessionCloses(s, visited, ended);
    ClosesThen(s, marked, Then(visited, ended));
  }

  lemma EndedKeeps(desk: Desk, ending: RunExecution.Ending)
    ensures Ended(desk, ending).desk == desk
  {
  }

  lemma SessionCloses(s: Setting, visited: Part, ended: Part)
    requires Shaped(s) && EndsWith(visited, StopFrom(s, 0))
    requires EndingStop(s.script.ending).Some? ==> EndsWith(ended, EndingStop(s.script.ending))
    requires StopFrom(s, 0).None? && EndingStop(s.script.ending).None? ==> Closes(s, ended)
    ensures Closes(s, Then(visited, ended))
  {
    hide StopFrom, EndingStop;
    if StopFrom(s, 0).Some? || EndingStop(s.script.ending).Some? {
      EndsThen(visited, ended, StopFrom(s, 0), EndingStop(s.script.ending));
    } else {
      ClosesThen(s, visited, ended);
    }
  }

  /** A session is refused exactly at a visit that it meets and that is refused. */
  lemma SessionIsJudged(c: Context, s: Setting, state: RunState)
    requires Ready(s) && Likely(c, s) && (s.resume || state.Running?)
    ensures var judged := Judge(c, state, s.start.records, PartOf(s).effects);
      forall kind :: judged == Some(kind) <==> RefusedFrom(s, 0, kind)
    ensures Judge(c, state, s.start.records, PartOf(s).effects).None? ==> Coherent(s.start, PartOf(s))
  {
    var marked := MarkedPart(s);
    MarkedDesk(s);
    JudgeMarked(c, s, state);
    PartUnfolds(s);
    var now := StateAfter(state, marked.effects);
    assert Warm(s, now, {});
    JudgeVisits(c, s, 0, marked.desk, now, {});
    assert Shaped(s) && s.plan != [];
    hide Ready, Onward, MarkedPart, PartOf, Entering, Judge, StateAfter, Coherent, Likely, Warm, RefusedFrom, AllValid;
    var visited := Onward(s, 0, marked.desk, {});
    var ended := EndedPart(s);
    if Judge(c, now, marked.desk.records, visited.effects).None? {
      JudgeEnded(c, visited.desk, s.script.ending);
      CoherentThen(marked.desk, visited, ended);
    }
    hide EndedPart;
    JudgeThen(c, now, marked.desk, visited, ended);
    var rest := Then(visited, ended);
    if Judge(c, now, marked.desk.records, rest.effects).None? {
      CoherentThen(s.start, marked, rest);
    }
    JudgeThen(c, state, s.start, marked, rest);
  }
}
