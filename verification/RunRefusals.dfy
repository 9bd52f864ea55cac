/** Runs that reach each of the refusals of src/run_v3.rs: a plan of one stage suffices. */
module RunRefusals {
  import opened Distinctness
  import opened PipelineGraph
  import opened RunExecution
  import opened RunFates
  import opened RunJudgement
  import opened RunManifests
  import opened RunOutcomes
  import opened RunSafety
  import opened RunTrace
  import opened Widths
  import opened Wrappers

  const STAGE := "render"
  const PLAN := [PlanStage(STAGE, [])]
  const STOP := Stop(false, CANCELLED_BEFORE)
  const ENDING := EndCompletes([Output("film", "f", 1, 1)], "delivery", None)
  const MISSING := Decision(false, [Reason(MissingCheckpoint, REBUILT)])
  const CORRUPT := Decision(false, [Reason(CorruptCheckpoint, REBUILT)])

  function OneVisit(compatible: seq<string>, otherwise: Decision, attempt: Attempt): Script {
    Script([Visit(false, compatible, otherwise, attempt)], {}, ENDING)
  }

  function Completing(digest: string): Attempt {
    Publishes(digest, STOP, Completes(None, None))
  }

  /** A rerun is requested, and cancelled once its checkpoint has been published. */
  const LATE := OneVisit([], MISSING, Publishes("d1", STOP, CancelledLate(CANCELLED_BEFORE)))

  ghost function Resumes(d: Disk, script: Script): Setting
    requires d.chain != []
  {
    Setting(PLAN, Desk(Last(d.chain).payload.stages, d.store), true, {}, script)
  }

  ghost function Begins(d: Disk, selected: set<string>, script: Script): Setting
    requires d.chain != []
  {
    Setting(PLAN, Desk(Last(d.chain).payload.stages, d.store), false, selected, script)
  }

  lemma PlanIsValid()
    ensures ValidPlan(PLAN)
  {
    assert DependsOnEarlier(PLAN, 0);
  }

  lemma ScriptIsPlausible(c: Context, compatible: seq<string>, otherwise: Decision, attempt: Attempt)
    requires Speaks(c) && otherwise in [MISSING, CORRUPT] && PlausibleAttempt(c, attempt)
    ensures Plausible(c, |PLAN|, OneVisit(compatible, otherwise, attempt))
  {
    var visit := Visit(false, compatible, otherwise, attempt);
    assert PlausibleVisit(c, visit);
    var script := OneVisit(compatible, otherwise, attempt);
    assert ValidOutputs(ENDING.outputs);
    assert PlausibleEnding(c, ENDING);
    forall k | 0 <= k < |PLAN| ensures PlausibleVisit(c, script.visits[k]) {
    }
  }

  lemma NothingForced(s: Setting)
    requires Shaped(s) && s.plan == PLAN && s.selected == {} && !s.start.records[0].rerunRequired
    ensures Forced(s.plan, s.start.records, s.selected) == {} && !IsForced(s, 0) && !Struck(s, 0, 0)
  {
    forall j | 0 <= j < |PLAN| ensures !Below(PLAN, {}, j) {
    }
    assert FrontierOf(PLAN, {}) == {};
    assert Due(s.start.records) == {};
  }

  /** The single stage decides about the whole session. */
  lemma OneStage(s: Setting, kind: Kind)
    requires Shaped(s) && s.plan == PLAN
    ensures RefusedFrom(s, 0, kind) <==> Refuses(s, 0, kind)
  {
    hide Refuses, GoesOn;
    RefusedNext(s, 0, kind);
    assert !RefusedFrom(s, 1, kind);
  }

  lemma OneIsRefused(c: Context, clock: nat -> int, d: Disk, s: Setting, kind: Kind)
    requires Opens(c, d, s) && HasRoom(d, s) && s.plan == PLAN
    requires Shaped(s) && Refuses(s, 0, kind)
    ensures d.chain != [] && OutcomeFrom(c, clock, d, s) == Some(Refused(kind))
  {
    hide Opens, Refuses, RefusedFrom, OutcomeFrom, RunsThrough;
    OneStage(s, kind);
    SessionOutcome(c, clock, d, s);
  }

  // -------------------------------------------------------------- a late cancellation

  /** A requested rerun that is cancelled after its checkpoint was published: the revision
      that records the cancellation is refused. */
  lemma LateCancellationIsReached(c: Context, clock: nat -> int, runId: string, planDigest: string)
    requires Speaks(c)
    ensures var d := FreshDisk(c, PLAN, clock, runId, planDigest);
      var s := Begins(d, {STAGE}, LATE);
      && Opens(c, d, s)
      && OutcomeFrom(c, clock, d, s) == Some(Refused(LateCancelling(0)))
  {
    PlanIsValid();
    FreshIsSound(c, PLAN, clock, runId, planDigest);
    ScriptIsPlausible(c, [], MISSING, LATE.visits[0].attempt);
    var d := FreshDisk(c, PLAN, clock, runId, planDigest);
    var s := Begins(d, {STAGE}, LATE);
    FreshSetting(c, clock, runId, planDigest, {STAGE}, LATE);
    assert IsForced(s, 0);
    hide Sound, Plausible, ValidPlan, Speaks, Forced, OutcomeFrom;
    assert Refuses(s, 0, LateCancelling(0));
    OneIsRefused(c, clock, d, s, LateCancelling(0));
  }

  lemma FreshSetting(c: Context, clock: nat -> int, runId: string, planDigest: string, selected: set<string>,
                     script: Script)
    requires |script.visits| == 1
    ensures var d := FreshDisk(c, PLAN, clock, runId, planDigest);
      var s := Begins(d, selected, script);
      && Shaped(s) && s.start == Desk(FreshRecords(PLAN), [[]]) && |d.chain| == 1
      && Last(d.chain).payload.state.Running? && HasRoom(d, s)
  {
  }

  // ------------------------------------------------------------------- another reason

  const FIRST := OneVisit([], MISSING, Completing("d1"))
  const OTHERWISE := OneVisit([], CORRUPT, Completing("d1"))

  lemma CompletingIsPlausible(c: Context, compatible: seq<string>, otherwise: Decision, digest: string)
    requires Speaks(c) && otherwise in [MISSING, CORRUPT]
    ensures Plausible(c, |PLAN|, OneVisit(compatible, otherwise, Completing(digest)))
  {
    ScriptIsPlausible(c, compatible, otherwise, Completing(digest));
  }

  /** A session that resumes the fresh run, and dies with its second revision. */
  ghost function Interrupted2(c: Context, clock: nat -> int, runId: string, planDigest: string): Disk {
    RunOf(c, PLAN, clock, runId, planDigest, Sitting({}, FIRST, 0), [Sitting({}, FIRST, 2)])
  }

  /** What the resumption of a fresh run does first. */
  lemma FirstTwo(s: Setting)
    requires Shaped(s) && s == Setting(PLAN, Desk(FreshRecords(PLAN), [[]]), true, {}, FIRST)
    ensures var e := Whole(s, RunState.Running).effects;
      && |e| >= 2
      && e[0] == Revise(Step(Interrupting, Interrupted, s.start.records, [], None, Some(INTERRUPTED)))
      && e[1] == Revise(Step(Invalidating(0), RunState.Running,
                             [InvalidatedRecord(s.start.records[0], MISSING)], [], None, None))
  {
    NothingForced(s);
    FrontierOfOne(PLAN, 0, 0);
    var f := FrontierOf(PLAN, {STAGE});
    var cleared := Invalidation(f, 0, MISSING, s.start, 0);
    var one := Change(Invalidating(0), s.start, 0, InvalidatedRecord(s.start.records[0], MISSING));
    assert cleared == Then(one, Invalidation(f, 0, MISSING, one.desk, 1));
    assert one.desk.records == [InvalidatedRecord(s.start.records[0], MISSING)];
    hide Build, FrontierOf, Forced;
    var t := Visited(PLAN, s.start, 0, FIRST.visits[0], {}, {}, true);
    assert t.part == Then(cleared, Build(cleared.desk, 0, Completing("d1")));
    assert t.part.effects[0] == one.effects[0];
    hide Visited, Invalidation;
    assert MarkedPart(s) == Idle(s.start) && TurnOf(s, 0, s.start, {}) == t;
    PartUnfolds(s);
    OnwardUnfolds(s, 0, s.start, {});
    hide Onward, PartOf, EndedPart;
    assert PartOf(s).effects[0] == one.effects[0];
  }

  /** The fresh run, resumed, is refused nowhere. */
  lemma FreshResumes(c: Context, clock: nat -> int, runId: string, planDigest: string)
    requires Speaks(c)
    ensures var d := FreshDisk(c, PLAN, clock, runId, planDigest);
      var s := Resumes(d, FIRST);
      && Opens(c, d, s) && s.start == Desk(FreshRecords(PLAN), [[]]) && Last(d.chain).payload.state.Running?
      && Perform(c, clock, d, Whole(s, RunState.Running).effects).refused.None?
  {
    PlanIsValid();
    FreshIsSound(c, PLAN, clock, runId, planDigest);
    CompletingIsPlausible(c, [], MISSING, "d1");
    FreshSetting(c, clock, runId, planDigest, {}, FIRST);
    var d := FreshDisk(c, PLAN, clock, runId, planDigest);
    var s := Resumes(d, FIRST);
    assert Opens(c, d, s);
    NothingForced(s);
    assert FateOf(s, 0) == Root;
    assert !Balks(s, 0, 0);
    hide Sound, Plausible, ValidPlan, Speaks, RefusedFrom, Forced, RunsThrough, Opens, Whole, Perform, FateOf, Balks;
    forall kind ensures !RefusedFrom(s, 0, kind) {
      OneStage(s, kind);
    }
    SessionOutcome(c, clock, d, s);
  }

  lemma TwoEffectsLater(desk: Desk, e: seq<Effect>)
    requires |e| >= 2 && e[0].Revise? && e[1].Revise?
    ensures AfterEffects(desk, e[..2]) == desk.(records := e[1].step.stages)
  {
    assert e[..2] == [e[0], e[1]] && [e[0], e[1]][1..] == [e[1]] && [e[1]][1..] == [];
    var none: seq<Effect> := [];
    assert AfterEffects(desk.(records := e[1].step.stages), none) == desk.(records := e[1].step.stages);
    assert AfterEffects(desk.(records := e[0].step.stages), [e[1]]) == desk.(records := e[1].step.stages);
  }

  /** What that session leaves: one stage, invalidated for want of a checkpoint. */
  lemma InterruptedLeaves(c: Context, clock: nat -> int, runId: string, planDigest: string)
    requires Speaks(c)
    ensures var d := Interrupted2(c, clock, runId, planDigest);
      && d.chain != [] && Sound(c, PLAN, d) && |d.chain| == 3
      && Desk(Last(d.chain).payload.stages, d.store)
         == Desk([InvalidatedRecord(FreshRecords(PLAN)[0], MISSING)], [[]])
  {
    PlanIsValid();
    CompletingIsPlausible(c, [], MISSING, "d1");
    EveryRunIsSafe(c, PLAN, clock, runId, planDigest, Sitting({}, FIRST, 0), [Sitting({}, FIRST, 2)]);
    FreshSetting(c, clock, runId, planDigest, {}, FIRST);
    FreshResumes(c, clock, runId, planDigest);
    var d := FreshDisk(c, PLAN, clock, runId, planDigest);
    var s := Resumes(d, FIRST);
    FirstTwo(s);
    hide Sound, Plausible, ValidPlan, Speaks, Opens, ResumedPart, SessionPart, FreshDisk, Perform, Resumes;
    hide Whole, RunOf, Sound, ValidPlan, Interrupted2, FreshRecords, InvalidatedRecord;
    TwoSurvive(c, clock, runId, planDigest, s);
    PerformTwo(c, clock, d, Whole(s, RunState.Running).effects);
  }

  lemma PerformTwo(c: Context, clock: nat -> int, d: Disk, e: seq<Effect>)
    requires d.chain != [] && Perform(c, clock, d, e).refused.None?
    requires |e| >= 2 && e[0].Revise? && e[1].Revise?
    ensures var after := Perform(c, clock, d, e[..2]).disk;
      && Desk(Last(after.chain).payload.stages, after.store) == Desk(e[1].step.stages, d.store)
      && |after.chain| == |d.chain| + 2
  {
    hide Perform, AfterEffects, RunRebuilds.Revised;
    assert e == e[..2] + e[2..];
    PerformJoin(c, clock, d, e[..2], e[2..]);
    PerformedAll(c, clock, d, e[..2]);
    TwoEffectsLater(Desk(Last(d.chain).payload.stages, d.store), e);
    assert e[..2] == [e[0], e[1]];
    TwoRevised(e[0], e[1]);
  }

  lemma TwoRevised(a: Effect, b: Effect)
    requires a.Revise? && b.Revise?
    ensures |RunRebuilds.Revised([a, b])| == 2
  {
    assert [a, b][1..] == [b] && [b][1..] == [];
    RunRebuilds.OneRevised(b.step);
  }

  lemma TwoSurvive(c: Context, clock: nat -> int, runId: string, planDigest: string, s: Setting)
    requires var d := FreshDisk(c, PLAN, clock, runId, planDigest);
      s == Resumes(d, FIRST) && s.start == Desk(FreshRecords(PLAN), [[]]) && Last(d.chain).payload.state.Running?
    requires |Whole(s, RunState.Running).effects| >= 2
    ensures var d := FreshDisk(c, PLAN, clock, runId, planDigest);
      Interrupted2(c, clock, runId, planDigest)
      == Perform(c, clock, d, Whole(s, RunState.Running).effects[..2]).disk
  {
    hide ResumedPart, SessionPart, Takes, Apply;
    var d := FreshDisk(c, PLAN, clock, runId, planDigest);
    var e := Whole(s, RunState.Running).effects;
    var first := SessionPart(PLAN, s.start, false, {}, FIRST);
    assert Surviving(first.effects, 0) == [];
    var later := [Sitting({}, FIRST, 2)];
    assert later[1..] == [];
    assert Surviving(e, 2) == e[..2];
    assert AfterSittings(c, PLAN, clock, d, later)
      == AfterSittings(c, PLAN, clock, Perform(c, clock, d, e[..2]).disk, []);
  }

  /** A session that dies between an invalidation and the build, and a resumption that finds
      another reason: the revision that records it is refused. */
  lemma SecondReasonIsReached(c: Context, clock: nat -> int, runId: string, planDigest: string)
    requires Speaks(c)
    ensures var d := Interrupted2(c, clock, runId, planDigest);
      && d.chain != [] && Opens(c, d, Resumes(d, OTHERWISE))
      && OutcomeFrom(c, clock, d, Resumes(d, OTHERWISE)) == Some(Refused(Invalidating(0)))
  {
    PlanIsValid();
    CompletingIsPlausible(c, [], CORRUPT, "d1");
    InterruptedLeaves(c, clock, runId, planDigest);
    var d := Interrupted2(c, clock, runId, planDigest);
    var s := Resumes(d, OTHERWISE);
    hide Interrupted2, Sound, Plausible, ValidPlan, Speaks, OutcomeFrom;
    OtherReasonRefused(s);
    OneIsRefused(c, clock, d, s, Invalidating(0));
  }

  lemma OtherReasonRefused(s: Setting)
    requires Shaped(s) && s.resume && s.plan == PLAN && s.selected == {} && s.script == OTHERWISE
    requires s.start == Desk([InvalidatedRecord(FreshRecords(PLAN)[0], MISSING)], [[]])
    ensures Refuses(s, 0, Invalidating(0))
  {
    NothingForced(s);
    hide Forced, Struck;
    assert FateOf(s, 0) == Root;
    assert Balks(s, 0, 0);
  }

  // ------------------------------------------------------------- another checkpoint

  const SECOND := OneVisit([], MISSING, Completing("d2"))
  const BACK := OneVisit(["d1"], MISSING, Completing("d3"))

  /** A run that completes, and completes again with a checkpoint built anew. */
  ghost function CompletedTwice(c: Context, clock: nat -> int, runId: string, planDigest: string): Disk {
    RunOf(c, PLAN, clock, runId, planDigest, Sitting({}, FIRST, 10), [Sitting({}, SECOND, 10)])
  }

  lemma OneFinishes(c: Context, clock: nat -> int, d: Disk, s: Setting)
    requires Opens(c, d, s) && HasRoom(d, s) && s.plan == PLAN && s.script.ending == ENDING
    requires Shaped(s) && GoesOn(s, 0) && forall kind :: !Refuses(s, 0, kind)
    ensures d.chain != []
    ensures var after := DiskAfter(c, clock, d, s);
      && Desk(Last(after.chain).payload.stages, after.store) == Desk([Settled(s, 0)], [SettledFiles(s, 0)])
      && |after.chain| <= |d.chain| + 10
  {
    hide Opens, GoesOn, Settled, SettledFiles, Refuses, RefusedFrom, OutcomeFrom, DiskAfter;
    assert RunsThrough(s);
    forall kind ensures !RefusedFrom(s, 0, kind) {
      OneStage(s, kind);
    }
    hide RunsThrough;
    SessionOutcome(c, clock, d, s);
    FinishedLeaves(c, clock, d, s);
    LengthAfter(c, clock, d, s);
  }

  lemma LengthAfter(c: Context, clock: nat -> int, d: Disk, s: Setting)
    requires d.chain != [] && Shaped(s)
    ensures |DiskAfter(c, clock, d, s).chain| <= |d.chain| + MostEffects(|s.plan|)
  {
    hide Perform, Whole;
    WholeBound(s, Last(d.chain).payload.state);
    PerformLength(c, clock, d, Whole(s, Last(d.chain).payload.state).effects);
  }

  lemma {:induction false} PerformLength(c: Context, clock: nat -> int, d: Disk, effects: seq<Effect>)
    requires d.chain != []
    ensures |Perform(c, clock, d, effects).disk.chain| <= |d.chain| + |effects|
    decreases |effects|
  {
    hide Takes;
    if effects != [] && Takes(c, clock, d, effects[0]) {
      PerformLength(c, clock, Apply(c, clock, d, effects[0]), effects[1..]);
    }
  }

  /** The first session completes the run with the first checkpoint. */
  lemma FirstCompletes(c: Context, clock: nat -> int, runId: string, planDigest: string)
    requires Speaks(c)
    ensures var d := FreshDisk(c, PLAN, clock, runId, planDigest);
      var s := Begins(d, {}, FIRST);
      && Opens(c, d, s)
      && var after := DiskAfter(c, clock, d, s);
         && after.store == [["d1"]] && |Last(after.chain).payload.stages| == 1 && |after.chain| <= 11
         && Last(after.chain).payload.stages[0]
            == CompletedRecord(FreshRecords(PLAN)[0], Reference(STAGE, "d1"), None)
  {
    PlanIsValid();
    FreshIsSound(c, PLAN, clock, runId, planDigest);
    CompletingIsPlausible(c, [], MISSING, "d1");
    FreshSetting(c, clock, runId, planDigest, {}, FIRST);
    var d := FreshDisk(c, PLAN, clock, runId, planDigest);
    var s := Begins(d, {}, FIRST);
    assert Opens(c, d, s) by { hide Sound, Plausible, ValidPlan, Speaks; }
    NothingForced(s);
    assert FateOf(s, 0) == Fresh;
    assert GoesOn(s, 0) && Settled(s, 0) == CompletedRecord(FreshRecords(PLAN)[0], Reference(STAGE, "d1"), None);
    assert SettledFiles(s, 0) == ["d1"];
    hide Sound, Plausible, ValidPlan, Speaks, Forced, Opens, FateOf, DiskAfter, GoesOn, Settled, SettledFiles;
    OneFinishes(c, clock, d, s);
  }

  /** The second one finds the checkpoint unfit, and completes the run with another. */
  lemma SecondCompletes(c: Context, clock: nat -> int, d: Disk)
    requires Speaks(c) && d.chain != [] && Sound(c, PLAN, d) && |d.chain| <= 11 && d.store == [["d1"]]
    requires |Last(d.chain).payload.stages| == 1
    requires Last(d.chain).payload.stages[0] == CompletedRecord(FreshRecords(PLAN)[0], Reference(STAGE, "d1"), None)
    ensures Opens(c, d, Resumes(d, SECOND))
    ensures var after := DiskAfter(c, clock, d, Resumes(d, SECOND));
      && after.store == [["d1", "d2"]] && |Last(after.chain).payload.stages| == 1 && |after.chain| <= 21
      && Last(after.chain).payload.stages[0]
         == CompletedRecord(FreshRecords(PLAN)[0], Reference(STAGE, "d2"), None)
  {
    PlanIsValid();
    CompletingIsPlausible(c, [], MISSING, "d2");
    var s := Resumes(d, SECOND);
    assert Opens(c, d, s) by { hide Sound, Plausible, ValidPlan, Speaks; }
    NothingForced(s);
    assert FateOf(s, 0) == Root;
    assert !Balks(s, 0, 0);
    assert GoesOn(s, 0) && Settled(s, 0) == CompletedRecord(FreshRecords(PLAN)[0], Reference(STAGE, "d2"), None);
    assert SettledFiles(s, 0) == ["d1", "d2"];
    assert HasRoom(d, s);
    hide Sound, Plausible, ValidPlan, Speaks, Forced, Opens, FateOf, DiskAfter, GoesOn, Settled, SettledFiles, Balks;
    OneFinishes(c, clock, d, s);
  }

  lemma WholeSurvives(c: Context, clock: nat -> int, d: Disk, s: Setting, state: RunState)
    requires d.chain != [] && Shaped(s) && s.plan == PLAN && state == Last(d.chain).payload.state
    ensures Perform(c, clock, d, Surviving(Whole(s, state).effects, 10)).disk == DiskAfter(c, clock, d, s)
  {
    hide Perform, Whole;
    WholeBound(s, state);
    var e := Whole(s, state).effects;
    assert e[..|e|] == e;
  }

  ghost function CompletedOnce(c: Context, clock: nat -> int, runId: string, planDigest: string): Disk {
    RunOf(c, PLAN, clock, runId, planDigest, Sitting({}, FIRST, 10), [])
  }

  lemma OnceIs(c: Context, clock: nat -> int, runId: string, planDigest: string)
    ensures var d := FreshDisk(c, PLAN, clock, runId, planDigest);
      var s := Begins(d, {}, FIRST);
      Shaped(s) && CompletedOnce(c, clock, runId, planDigest) == DiskAfter(c, clock, d, s)
  {
    FreshSetting(c, clock, runId, planDigest, {}, FIRST);
    var d := FreshDisk(c, PLAN, clock, runId, planDigest);
    var s := Begins(d, {}, FIRST);
    WholeSurvives(c, clock, d, s, RunState.Running);
    hide SessionPart, Perform, DiskAfter, Surviving;
    assert Whole(s, RunState.Running) == SessionPart(PLAN, s.start, false, {}, FIRST);
  }

  lemma TwiceIs(c: Context, clock: nat -> int, runId: string, planDigest: string)
    requires var d := CompletedOnce(c, clock, runId, planDigest);
      d.chain != [] && |Last(d.chain).payload.stages| == 1 && |d.store| == 1
    ensures var d := CompletedOnce(c, clock, runId, planDigest);
      && Shaped(Resumes(d, SECOND))
      && CompletedTwice(c, clock, runId, planDigest) == DiskAfter(c, clock, d, Resumes(d, SECOND))
  {
    var d := CompletedOnce(c, clock, runId, planDigest);
    var s := Resumes(d, SECOND);
    var state := Last(d.chain).payload.state;
    WholeSurvives(c, clock, d, s, state);
    hide SessionPart, ResumedPart, Perform, DiskAfter, Surviving, FreshDisk;
    assert Whole(s, state) == ResumedPart(PLAN, state, s.start, {}, SECOND);
    var later := [Sitting({}, SECOND, 10)];
    assert later[1..] == [];
    var next := DiskAfter(c, clock, d, s);
    assert AfterSittings(c, PLAN, clock, next, []) == next;
    assert AfterSittings(c, PLAN, clock, d, later) == next;
    SittingsFollow(c, clock, runId, planDigest, later);
  }

  lemma SittingsFollow(c: Context, clock: nat -> int, runId: string, planDigest: string, later: seq<Sitting>)
    ensures CompletedOnce(c, clock, runId, planDigest).chain != []
    ensures RunOf(c, PLAN, clock, runId, planDigest, Sitting({}, FIRST, 10), later)
      == AfterSittings(c, PLAN, clock, CompletedOnce(c, clock, runId, planDigest), later)
  {
    FreshSetting(c, clock, runId, planDigest, {}, FIRST);
    hide SessionPart, FreshDisk, Surviving;
    var d := FreshDisk(c, PLAN, clock, runId, planDigest);
    var p := SessionPart(PLAN, Desk(FreshRecords(PLAN), d.store), false, {}, FIRST);
    var next := Perform(c, clock, d, Surviving(p.effects, 10)).disk;
    hide Perform;
    assert AfterSittings(c, PLAN, clock, next, []) == next;
  }

  /** A complete run whose accepted checkpoint no longer fits while an older one does: the
      revision that records the reuse of that one is refused. */
  lemma OtherCheckpointIsReached(c: Context, clock: nat -> int, runId: string, planDigest: string)
    requires Speaks(c)
    ensures var d := CompletedTwice(c, clock, runId, planDigest);
      && d.chain != [] && Opens(c, d, Resumes(d, BACK))
      && OutcomeFrom(c, clock, d, Resumes(d, BACK)) == Some(Refused(Reusing(0)))
  {
    TwiceLeaves(c, clock, runId, planDigest);
    PlanIsValid();
    CompletingIsPlausible(c, ["d1"], MISSING, "d3");
    var d := CompletedTwice(c, clock, runId, planDigest);
    var s := Resumes(d, BACK);
    hide CompletedTwice, Sound, Plausible, ValidPlan, Speaks, OutcomeFrom;
    OtherCheckpointRefused(s);
    OneIsRefused(c, clock, d, s, Reusing(0));
  }

  lemma OtherCheckpointRefused(s: Setting)
    requires Shaped(s) && s.resume && s.plan == PLAN && s.selected == {} && s.script == BACK
    requires s.start.store == [["d1", "d2"]]
    requires s.start.records[0] == CompletedRecord(FreshRecords(PLAN)[0], Reference(STAGE, "d2"), None)
    ensures Refuses(s, 0, Reusing(0))
  {
    NothingForced(s);
    hide Forced, Struck;
    assert FateOf(s, 0) == Kept("d1");
  }

  lemma TwiceLeaves(c: Context, clock: nat -> int, runId: string, planDigest: string)
    requires Speaks(c)
    ensures var d := CompletedTwice(c, clock, runId, planDigest);
      && d.chain != [] && Sound(c, PLAN, d) && d.store == [["d1", "d2"]] && |Last(d.chain).payload.stages| == 1
      && |d.chain| <= 21
      && Last(d.chain).payload.stages[0]
         == CompletedRecord(FreshRecords(PLAN)[0], Reference(STAGE, "d2"), None)
  {
    PlanIsValid();
    CompletingIsPlausible(c, [], MISSING, "d1");
    CompletingIsPlausible(c, [], MISSING, "d2");
    hide Sound, Plausible, ValidPlan, Speaks, FreshDisk, DiskAfter, Opens, CompletedRecord, FreshRecords;
    EveryRunIsSafe(c, PLAN, clock, runId, planDigest, Sitting({}, FIRST, 10), []);
    EveryRunIsSafe(c, PLAN, clock, runId, planDigest, Sitting({}, FIRST, 10), [Sitting({}, SECOND, 10)]);
    hide RunOf;
    FirstCompletes(c, clock, runId, planDigest);
    OnceIs(c, clock, runId, planDigest);
    SecondCompletes(c, clock, CompletedOnce(c, clock, runId, planDigest));
    TwiceIs(c, clock, runId, planDigest);
  }
}
