/** Safety of runs: whatever a session proposes, and wherever it is cut short, the revisions
    on disk stay one valid chain in which no stage starts before its dependencies. */
module RunSafety {
  import opened Distinctness
  import opened PipelineGraph
  import opened RunExecution
  import opened RunManifests
  import opened RunTrace
  import opened Widths
  import opened Wrappers

  // -------------------------------------------------------------- what holds on disk

  /** A pending stage has published nothing, and whatever is accepted or excluded exists. */
  predicate StageFits(r: Record, files: seq<string>) {
    && (r.state.Pending? ==> files == [])
    && (r.checkpoint.Some? ==> r.checkpoint.value.sha256 in files)
    && (forall i :: 0 <= i < |r.excluded| ==> r.excluded[i] in files)
  }

  predicate StoreFits(desk: Desk) {
    Fits(desk) && forall j :: 0 <= j < |desk.records| ==> StageFits(desk.records[j], desk.store[j])
  }

  /** With a stage, everything that depends on it is due for a rerun. */
  ghost predicate DueClosed(plan: seq<PlanStage>, records: seq<Record>)
    requires |records| == |plan|
  {
    forall i, j :: 0 <= i < |plan| && 0 <= j < |plan| && records[i].rerunRequired && Reaches(plan, j, i) ==>
      records[j].rerunRequired
  }

  ghost predicate OrderlyDesk(plan: seq<PlanStage>, desk: Desk) {
    Aligned(plan, desk.records) && |desk.records| == |plan| && StoreFits(desk) && DueClosed(plan, desk.records)
  }

  ghost predicate Sound(c: Context, plan: seq<PlanStage>, d: Disk) {
    && d.chain != [] && ValidChain(c, d.chain)
    && DependenciesReady(plan, d.chain)
    && OrderlyDesk(plan, Desk(Last(d.chain).payload.stages, d.store))
  }

  // ------------------------------------------------------------------ proper effects

  function AfterEffect(desk: Desk, e: Effect): Desk {
    match e
    case Revise(s) => desk.(records := s.stages)
    case Publish(k, digest) =>
      if k < |desk.store| then desk.(store := desk.store[k := desk.store[k] + [digest]]) else desk
  }

  function AfterEffects(desk: Desk, effects: seq<Effect>): Desk
    decreases |effects|
  {
    if effects == [] then desk else AfterEffects(AfterEffect(desk, effects[0]), effects[1..])
  }

  /** An effect that keeps the disk sound, if the rules take it. */
  ghost predicate ProperEffect(c: Context, plan: seq<PlanStage>, desk: Desk, e: Effect)
    requires |desk.records| == |plan|
  {
    match e
    case Revise(s) =>
      && OrderlyDesk(plan, desk.(records := s.stages))
      && CarriesValid(c, s.state, s.stages, s.outputs, s.delivery, s.diagnostic)
      && StartsReady(plan, desk.records, s.stages)
    case Publish(k, _) => k < |desk.store| && k < |plan| && !desk.records[k].state.Pending?
  }

  ghost predicate Proper(c: Context, plan: seq<PlanStage>, desk: Desk, effects: seq<Effect>)
    requires |desk.records| == |plan|
    decreases |effects|
  {
    effects == [] ||
    (&& ProperEffect(c, plan, desk, effects[0])
     && Proper(c, plan, AfterEffect(desk, effects[0]), effects[1..]))
  }

  lemma ProperKeepsOrder(c: Context, plan: seq<PlanStage>, desk: Desk, e: Effect)
    requires OrderlyDesk(plan, desk) && ProperEffect(c, plan, desk, e)
    ensures OrderlyDesk(plan, AfterEffect(desk, e))
  {
    hide DueClosed, Aligned;
  }

  lemma EffectIsSound(c: Context, plan: seq<PlanStage>, clock: nat -> int, d: Disk, e: Effect)
    requires Sound(c, plan, d) && Takes(c, clock, d, e)
    requires ProperEffect(c, plan, Desk(Last(d.chain).payload.stages, d.store), e)
    ensures Sound(c, plan, Apply(c, clock, d, e))
    ensures var after := Apply(c, clock, d, e);
      Desk(Last(after.chain).payload.stages, after.store)
      == AfterEffect(Desk(Last(d.chain).payload.stages, d.store), e)
  {
    hide ValidManifest, Follows, ValidChain, DueClosed, Aligned, StartsReady, CarriesValid;
    ProperKeepsOrder(c, plan, Desk(Last(d.chain).payload.stages, d.store), e);
    if e.Revise? {
      var next := Proposed(c, clock, d, e.step);
      ChainOneMore(c, d.chain, next);
      ReadyOneMore(plan, d.chain, next);
    }
  }

  /** Proper effects leave a sound disk, however many of them get through. */
  lemma {:induction false} PerformIsSound(c: Context, plan: seq<PlanStage>, clock: nat -> int, d: Disk,
                                          effects: seq<Effect>)
    requires Sound(c, plan, d) && Proper(c, plan, Desk(Last(d.chain).payload.stages, d.store), effects)
    ensures Sound(c, plan, Perform(c, clock, d, effects).disk)
    ensures d.chain <= Perform(c, clock, d, effects).disk.chain
    decreases |effects|
  {
    SoundMeans(c, plan, d);
    hide Sound, ProperEffect, Takes;
    if effects != [] && Takes(c, clock, d, effects[0]) {
      EffectIsSound(c, plan, clock, d, effects[0]);
      SoundMeans(c, plan, Apply(c, clock, d, effects[0]));
      PerformIsSound(c, plan, clock, Apply(c, clock, d, effects[0]), effects[1..]);
    }
  }

  lemma SoundMeans(c: Context, plan: seq<PlanStage>, d: Disk)
    requires Sound(c, plan, d)
    ensures d.chain != [] && |Last(d.chain).payload.stages| == |plan| == |d.store|
  {
    hide ValidChain, DependenciesReady, DueClosed, Aligned;
  }

  lemma {:induction false} ProperPrefix(c: Context, plan: seq<PlanStage>, desk: Desk, effects: seq<Effect>, n: nat)
    requires OrderlyDesk(plan, desk) && n <= |effects| && Proper(c, plan, desk, effects)
    ensures Proper(c, plan, desk, effects[..n])
    decreases n
  {
    hide ProperEffect, OrderlyDesk, AfterEffect;
    if n > 0 {
      ProperKeepsOrder(c, plan, desk, effects[0]);
      OrderlyMeans(plan, AfterEffect(desk, effects[0]));
      ProperPrefix(c, plan, AfterEffect(desk, effects[0]), effects[1..], n - 1);
      assert effects[..n][1..] == effects[1..][..n - 1];
    }
  }

  lemma OrderlyMeans(plan: seq<PlanStage>, desk: Desk)
    requires OrderlyDesk(plan, desk)
    ensures |desk.records| == |plan| == |desk.store|
  {
    hide DueClosed, Aligned;
  }

  // ---------------------------------------------------------------------- parts

  ghost predicate ProperPart(c: Context, plan: seq<PlanStage>, desk: Desk, p: Part)
    requires |desk.records| == |plan|
  {
    Proper(c, plan, desk, p.effects) && p.desk == AfterEffects(desk, p.effects) && OrderlyDesk(plan, p.desk)
  }

  lemma {:induction false} ProperJoin(c: Context, plan: seq<PlanStage>, desk: Desk, first: seq<Effect>,
                                      second: seq<Effect>)
    requires OrderlyDesk(plan, desk) && Proper(c, plan, desk, first)
    ensures |AfterEffects(desk, first).records| == |plan|
    ensures Proper(c, plan, AfterEffects(desk, first), second) ==> Proper(c, plan, desk, first + second)
    ensures AfterEffects(desk, first + second) == AfterEffects(AfterEffects(desk, first), second)
    decreases |first|
  {
    hide ProperEffect, OrderlyDesk, AfterEffect;
    OrderlyMeans(plan, desk);
    if first == [] {
      assert first + second == second;
    } else {
      assert (first + second)[0] == first[0] && (first + second)[1..] == first[1..] + second;
      ProperKeepsOrder(c, plan, desk, first[0]);
      OrderlyMeans(plan, AfterEffect(desk, first[0]));
      ProperJoin(c, plan, AfterEffect(desk, first[0]), first[1..], second);
    }
  }

  lemma ProperThen(c: Context, plan: seq<PlanStage>, desk: Desk, p: Part, q: Part)
    requires OrderlyDesk(plan, desk) && ProperPart(c, plan, desk, p) && |p.desk.records| == |plan|
    requires p.end.None? ==> ProperPart(c, plan, p.desk, q)
    ensures ProperPart(c, plan, desk, Then(p, q))
  {
    hide Proper, OrderlyDesk;
    ProperJoin(c, plan, desk, p.effects, q.effects);
  }

  lemma ProperIdle(c: Context, plan: seq<PlanStage>, desk: Desk)
    requires OrderlyDesk(plan, desk)
    ensures |desk.records| == |plan| && ProperPart(c, plan, desk, Idle(desk))
  {
    hide OrderlyDesk;
    OrderlyMeans(plan, desk);
  }

  lemma ProperOne(c: Context, plan: seq<PlanStage>, desk: Desk, e: Effect, end: Option<End>)
    requires OrderlyDesk(plan, desk) && |desk.records| == |plan| && ProperEffect(c, plan, desk, e)
    ensures ProperPart(c, plan, desk, Part([e], AfterEffect(desk, e), end))
  {
    hide OrderlyDesk, ProperEffect, AfterEffect;
    ProperKeepsOrder(c, plan, desk, e);
    OrderlyMeans(plan, AfterEffect(desk, e));
    var none: seq<Effect> := [];
    assert [e][1..] == none && AfterEffects(AfterEffect(desk, e), none) == AfterEffect(desk, e);
    assert Proper(c, plan, AfterEffect(desk, e), none);
  }

  /** The stages before `k` are complete, and none of them is due. */
  ghost predicate DoneTo(desk: Desk, k: nat) {
    forall j :: 0 <= j < k && j < |desk.records| ==>
      desk.records[j].state.Complete? && !desk.records[j].rerunRequired
  }

  /** A change of one record that keeps everything in order. */
  ghost predicate OrderlyChange(plan: seq<PlanStage>, desk: Desk, k: nat, r: Record)
    requires k < |desk.records| == |desk.store|
  {
    && r.stageId == desk.records[k].stageId && StageFits(r, desk.store[k])
    && (r.rerunRequired == desk.records[k].rerunRequired || (!r.rerunRequired && DoneTo(desk, k)))
    && (r.state.Running? ==> DoneTo(desk, k))
  }

  lemma ChangeIsOrderly(plan: seq<PlanStage>, desk: Desk, k: nat, r: Record)
    requires ValidPlan(plan) && OrderlyDesk(plan, desk) && k < |plan| == |desk.records| == |desk.store|
    requires OrderlyChange(plan, desk, k, r)
    ensures OrderlyDesk(plan, desk.(records := desk.records[k := r]))
    ensures StartsReady(plan, desk.records, desk.records[k := r])
  {
    SameIdsAfterChange(desk.records, k, r);
    ChangeKeepsDue(plan, desk, k, r);
    if r.state.Running? {
      EarlierSuffice(plan, desk.records, k);
    }
    StartReady(plan, desk.records, k, r);
    hide ValidPlan, Reaches;
  }

  lemma ChangeKeepsDue(plan: seq<PlanStage>, desk: Desk, k: nat, r: Record)
    requires OrderlyDesk(plan, desk) && k < |plan| == |desk.records| == |desk.store|
    requires OrderlyChange(plan, desk, k, r)
    ensures DueClosed(plan, desk.records[k := r])
  {
    hide StageFits, Aligned;
    var after := desk.records[k := r];
    forall i, j | 0 <= i < |plan| && 0 <= j < |plan| && after[i].rerunRequired && Reaches(plan, j, i)
      ensures after[j].rerunRequired
    {
      assert desk.records[i].rerunRequired && desk.records[j].rerunRequired;
      if j == k && !r.rerunRequired {
        ReachesEarlier(plan, j, i);
      }
    }
  }

  lemma EarlierSuffice(plan: seq<PlanStage>, records: seq<Record>, k: nat)
    requires ValidPlan(plan) && |plan| == |records| && k < |plan|
    requires forall j :: 0 <= j < k ==> records[j].state.Complete?
    ensures DependenciesComplete(plan, records, k)
  {
    assert DependsOnEarlier(plan, k);
    forall d | 0 <= d < |plan| && plan[d].id in plan[k].dependsOn ensures records[d].state.Complete? {
      var j :| 0 <= j < k && plan[j].id == plan[d].id;
      SameIdSameStage(plan, j, d);
    }
  }

  ghost predicate DependenciesComplete(plan: seq<PlanStage>, records: seq<Record>, k: nat)
    requires |plan| == |records| && k < |plan|
  {
    forall d :: 0 <= d < |plan| && plan[d].id in plan[k].dependsOn ==> records[d].state.Complete?
  }

  /** Only the changed stage can newly be running, and then its dependencies are complete. */
  lemma StartReady(plan: seq<PlanStage>, records: seq<Record>, k: nat, r: Record)
    requires ValidPlan(plan) && |plan| == |records| && k < |plan|
    requires r.state.Running? ==> DependenciesComplete(plan, records, k)
    ensures StartsReady(plan, records, records[k := r])
  {
    assert DependsOnEarlier(plan, k);
    forall s, d | 0 <= s < |plan| && records[k := r][s].state.Running? && !records[s].state.Running?
                  && 0 <= d < |plan| && plan[d].id in plan[s].dependsOn
      ensures records[k := r][d].state.Complete?
    {
      assert s == k;
      var j :| 0 <= j < k && plan[j].id == plan[d].id;
      SameIdSameStage(plan, j, d);
    }
  }

  lemma CarriesNothing(c: Context, state: RunState, records: seq<Record>, diagnostic: Option<string>)
    requires !state.Complete? && (diagnostic.Some? ==> c.printable(diagnostic.value))
    ensures CarriesValid(c, state, records, [], None, diagnostic)
  {
    assert OutputIds([]) == [];
  }

  /** A single revision that changes one stage. */
  lemma ProperChange(c: Context, plan: seq<PlanStage>, desk: Desk, k: nat, r: Record, kind: Kind, state: RunState,
                     diagnostic: Option<string>, end: Option<End>)
    requires ValidPlan(plan) && OrderlyDesk(plan, desk) && k < |plan| == |desk.records| == |desk.store|
    requires OrderlyChange(plan, desk, k, r)
    requires !state.Complete? && (diagnostic.Some? ==> c.printable(diagnostic.value))
    ensures var records := desk.records[k := r];
      ProperPart(c, plan, desk, Part([Revise(Step(kind, state, records, [], None, diagnostic))],
                                     desk.(records := records), end))
  {
    hide OrderlyDesk, ValidPlan, OrderlyChange, StartsReady, CarriesValid, ProperPart;
    ChangeIsOrderly(plan, desk, k, r);
    var records := desk.records[k := r];
    CarriesNothing(c, state, records, diagnostic);
    ProperOne(c, plan, desk, Revise(Step(kind, state, records, [], None, diagnostic)), end);
  }

  /** A single revision that changes no stage. */
  lemma ProperNote(c: Context, plan: seq<PlanStage>, desk: Desk, s: Step, end: Option<End>)
    requires OrderlyDesk(plan, desk) && |desk.records| == |plan| && s.stages == desk.records
    requires CarriesValid(c, s.state, s.stages, s.outputs, s.delivery, s.diagnostic)
    ensures ProperPart(c, plan, desk, Part([Revise(s)], desk, end))
  {
    hide OrderlyDesk, CarriesValid, ProperPart;
    assert desk.(records := s.stages) == desk;
    assert StartsReady(plan, desk.records, s.stages);
    ProperOne(c, plan, desk, Revise(s), end);
  }

  lemma ProperStop(c: Context, plan: seq<PlanStage>, desk: Desk, k: nat, stop: Stop)
    requires ValidPlan(plan) && OrderlyDesk(plan, desk) && k < |plan| == |desk.records| == |desk.store|
    requires c.printable(stop.message)
    ensures ProperPart(c, plan, desk, StopAt(desk, k, stop))
  {
    hide ProperPart, ValidPlan, DueClosed, Aligned;
    var r := StoppedRecord(desk.records[k], stop.cancelled, stop.message);
    ProperChange(c, plan, desk, k, r, Stopping(k), if stop.cancelled then RunState.Cancelled else RunState.Failed,
                 Some(stop.message), Some(if stop.cancelled then End.Cancelled else End.Failed));
  }

  lemma ProperCancel(c: Context, plan: seq<PlanStage>, desk: Desk, message: string)
    requires OrderlyDesk(plan, desk) && |desk.records| == |plan| && c.printable(message)
    ensures ProperPart(c, plan, desk, CancelBetween(desk, message))
  {
    hide ProperPart, OrderlyDesk;
    CarriesNothing(c, RunState.Cancelled, desk.records, Some(message));
    ProperNote(c, plan, desk, Step(Cancelling, RunState.Cancelled, desk.records, [], None, Some(message)),
               Some(End.Cancelled));
  }

  /** The stage being built, with all stages before it done. */
  ghost predicate Building(plan: seq<PlanStage>, desk: Desk, k: nat) {
    OrderlyDesk(plan, desk) && k < |plan| == |desk.records| == |desk.store| && DoneTo(desk, k)
  }

  lemma ProperAfterPublished(c: Context, plan: seq<PlanStage>, desk: Desk, k: nat, digest: string,
                             next: AfterPublication)
    requires ValidPlan(plan) && Building(plan, desk, k) && PlausibleNext(c, next)
    requires !desk.records[k].state.Pending?
    requires digest in desk.store[k]
    ensures var p := AfterPublished(desk, k, digest, next);
      ProperPart(c, plan, desk, p) && (p.end.None? ==> DoneTo(p.desk, k + 1))
  {
    hide ProperPart, ValidPlan, DueClosed, Aligned;
    match next {
      case StopsPublished(stop) =>
        ProperStop(c, plan, desk, k, stop);
      case CancelledLate(message) =>
        var r := StoppedRecord(desk.records[k].(rerunRequired := false), true, message);
        ProperChange(c, plan, desk, k, r, LateCancelling(k), RunState.Cancelled, Some(message), Some(End.Cancelled));
      case Completes(cacheMessage, cancelledAfter) =>
        var r := CompletedRecord(desk.records[k], Reference(desk.records[k].stageId, digest), cacheMessage);
        ProperChange(c, plan, desk, k, r, Accepting(k), RunState.Running, None, None);
        var done := Accepted(desk, k, digest, cacheMessage);
        PartIsOrderly(c, plan, desk, done);
        if cancelledAfter.Some? {
          ProperCancel(c, plan, done.desk, cancelledAfter.value);
          ProperThen(c, plan, desk, done, CancelBetween(done.desk, cancelledAfter.value));
        } else {
          ProperIdle(c, plan, done.desk);
          ProperThen(c, plan, desk, done, Idle(done.desk));
        }
    }
  }

  lemma PartIsOrderly(c: Context, plan: seq<PlanStage>, desk: Desk, p: Part)
    requires |desk.records| == |plan| && ProperPart(c, plan, desk, p)
    ensures OrderlyDesk(plan, p.desk) && |p.desk.records| == |plan| == |p.desk.store|
  {
    hide DueClosed, Aligned, Proper;
  }

  lemma ProperPublished(c: Context, plan: seq<PlanStage>, desk: Desk, k: nat, digest: string, collision: Stop,
                        next: AfterPublication)
    requires ValidPlan(plan) && Building(plan, desk, k) && c.printable(collision.message) && PlausibleNext(c, next)
    requires !desk.records[k].state.Pending?
    ensures var p := Published(desk, k, digest, collision, next);
      ProperPart(c, plan, desk, p) && (p.end.None? ==> DoneTo(p.desk, k + 1))
  {
    hide ProperPart, ValidPlan, OrderlyDesk, PlausibleNext, AfterPublished;
    if digest in desk.store[k] {
      ProperStop(c, plan, desk, k, collision);
    } else {
      ProperOne(c, plan, desk, Publish(k, digest), None);
      var kept := desk.(store := desk.store[k := desk.store[k] + [digest]]);
      var p := Part([Publish(k, digest)], kept, None);
      PartIsOrderly(c, plan, desk, p);
      ProperAfterPublished(c, plan, kept, k, digest, next);
      ProperThen(c, plan, desk, p, AfterPublished(kept, k, digest, next));
    }
  }

  lemma ProperBuild(c: Context, plan: seq<PlanStage>, desk: Desk, k: nat, attempt: Attempt)
    requires ValidPlan(plan) && Building(plan, desk, k) && PlausibleAttempt(c, attempt)
    ensures var p := Build(desk, k, attempt);
      ProperPart(c, plan, desk, p) && (p.end.None? ==> DoneTo(p.desk, k + 1))
  {
    hide ProperPart, ValidPlan, DueClosed, Aligned, PlausibleNext, BuildRest;
    if attempt.StopsAtInputs? {
      ProperStop(c, plan, desk, k, attempt.stop);
    } else {
      ProperChange(c, plan, desk, k, StartedRecord(desk.records[k]), Starting(k), RunState.Running, None, None);
      var started := Started(desk, k);
      PartIsOrderly(c, plan, desk, started);
      ProperRest(c, plan, started.desk, k, attempt);
      ProperThen(c, plan, desk, started, BuildRest(started.desk, k, attempt));
    }
  }

  lemma ProperRest(c: Context, plan: seq<PlanStage>, desk: Desk, k: nat, attempt: Attempt)
    requires ValidPlan(plan) && Building(plan, desk, k) && PlausibleAttempt(c, attempt) && !attempt.StopsAtInputs?
    requires desk.records[k].state.Running?
    ensures var p := BuildRest(desk, k, attempt);
      ProperPart(c, plan, desk, p) && (p.end.None? ==> DoneTo(p.desk, k + 1))
  {
    hide ProperPart, ValidPlan, DueClosed, Aligned, PlausibleNext, Published;
    if attempt.StopsRunning? {
      ProperStop(c, plan, desk, k, attempt.stop);
    } else {
      ProperChange(c, plan, desk, k, desk.records[k].(state := Validating), Checking(k), RunState.Running, None, None);
      var checked := Checked(desk, k);
      PartIsOrderly(c, plan, desk, checked);
      match attempt {
        case StopsValidating(stop) =>
          ProperStop(c, plan, checked.desk, k, stop);
        case Publishes(digest, collision, next) =>
          ProperPublished(c, plan, checked.desk, k, digest, collision, next);
      }
      ProperThen(c, plan, desk, checked, BuildChecked(checked.desk, k, attempt));
    }
  }

  /** Invalidation touches no stage before its root. */
  lemma {:induction false} ProperInvalidation(c: Context, plan: seq<PlanStage>, f: set<string>, k: nat,
                                              decision: Decision, desk: Desk, j: nat)
    requires ValidPlan(plan) && Building(plan, desk, k) && j <= |plan|
    requires forall i :: 0 <= i < |plan| && plan[i].id in f ==> k <= i
    ensures var p := Invalidation(f, k, decision, desk, j);
      ProperPart(c, plan, desk, p) && Building(plan, p.desk, k) && p.end.None?
    decreases |plan| - j
  {
    hide ProperPart, ValidPlan, DueClosed;
    AlignedMeans(plan, desk.records);
    hide Aligned;
    if j == |plan| {
      ProperIdle(c, plan, desk);
    } else if desk.records[j].stageId in f {
      var r := InvalidatedRecord(desk.records[j], Why(k, j, decision));
      ProperChange(c, plan, desk, j, r, Invalidating(j), RunState.Running, None, None);
      var one := Change(Invalidating(j), desk, j, r);
      PartIsOrderly(c, plan, desk, one);
      ProperInvalidation(c, plan, f, k, decision, one.desk, j + 1);
      ProperThen(c, plan, desk, one, Invalidation(f, k, decision, one.desk, j + 1));
    } else {
      ProperInvalidation(c, plan, f, k, decision, desk, j + 1);
    }
  }

  lemma AlignedMeans(plan: seq<PlanStage>, records: seq<Record>)
    requires Aligned(plan, records)
    ensures |plan| == |records|
    ensures forall i :: 0 <= i < |plan| ==> records[i].stageId == plan[i].id
  {
    assert |StageIds(records)| == |records| && |PlanIds(plan)| == |plan|;
    forall i | 0 <= i < |plan| ensures records[i].stageId == plan[i].id {
      assert StageIds(records)[i] == PlanIds(plan)[i];
    }
  }

  /** Nothing before a stage depends on it. */
  lemma FrontierIsFromRoot(plan: seq<PlanStage>, k: nat)
    requires ValidPlan(plan) && k < |plan|
    ensures forall i :: 0 <= i < |plan| && plan[i].id in FrontierOf(plan, {plan[k].id}) ==> k <= i
  {
    hide FrontierOf, Reaches;
    forall i | 0 <= i < |plan| && plan[i].id in FrontierOf(plan, {plan[k].id}) ensures k <= i {
      FrontierOfOne(plan, k, i);
      if i != k {
        ReachesEarlier(plan, i, k);
      }
    }
  }

  /** A stage that is reused is not due. */
  lemma ProperReuse(c: Context, plan: seq<PlanStage>, desk: Desk, k: nat, digest: string)
    requires ValidPlan(plan) && Building(plan, desk, k) && !desk.records[k].rerunRequired
    requires digest in desk.store[k]
    ensures var p := Reused(desk, k, digest);
      ProperPart(c, plan, desk, p) && DoneTo(p.desk, k + 1)
  {
    hide ProperPart, ValidPlan, DueClosed, Aligned;
    var r := ReusedRecord(desk.records[k], Reference(desk.records[k].stageId, digest));
    ProperChange(c, plan, desk, k, r, Reusing(k), RunState.Running, None, None);
  }

  lemma ProperVisit(c: Context, plan: seq<PlanStage>, desk: Desk, k: nat, visit: Visit, forced: set<string>,
                    invalidated: set<string>, resume: bool)
    requires Speaks(c) && ValidPlan(plan) && Building(plan, desk, k) && PlausibleVisit(c, visit)
    requires desk.records[k].rerunRequired ==> plan[k].id in forced
    ensures var p := Visited(plan, desk, k, visit, forced, invalidated, resume).part;
      ProperPart(c, plan, desk, p) && (p.end.None? ==> DoneTo(p.desk, k + 1))
  {
    hide ProperPart, ValidPlan, OrderlyDesk, Build, Reused, Invalidation, FrontierOf, Speaks;
    hide ValidDecision, PlausibleAttempt;
    assert c.printable(CANCELLED_BEFORE) by { SpeaksOfCancelling(c); }
    if visit.cancelledBefore {
      ProperCancel(c, plan, desk, CANCELLED_BEFORE);
    } else if resume && plan[k].id !in forced && plan[k].id !in invalidated {
      var kept := FirstKept(visit.compatible, desk.records[k].excluded, desk.store[k]);
      if kept.Some? {
        KeptExists(visit.compatible, desk.records[k].excluded, desk.store[k]);
        ProperReuse(c, plan, desk, k, kept.value);
      } else {
        var f := FrontierOf(plan, {plan[k].id});
        FrontierIsFromRoot(plan, k);
        ProperInvalidation(c, plan, f, k, visit.otherwise, desk, 0);
        var cleared := Invalidation(f, k, visit.otherwise, desk, 0);
        ProperBuild(c, plan, cleared.desk, k, visit.attempt);
        ProperThen(c, plan, desk, cleared, Build(cleared.desk, k, visit.attempt));
      }
    } else {
      ProperBuild(c, plan, desk, k, visit.attempt);
    }
  }

  lemma KeptExists(compatible: seq<string>, excluded: seq<string>, files: seq<string>)
    ensures var kept := FirstKept(compatible, excluded, files);
      kept.Some? ==> kept.value in files && kept.value !in excluded && kept.value in compatible
  {
    var kept := FirstKept(compatible, excluded, files);
    if kept.Some? {
      var i: nat :| FirstFit(compatible, excluded, files, i) && compatible[i] == kept.value;
    }
  }

  lemma SpeaksOfCancelling(c: Context)
    requires Speaks(c)
    ensures c.printable(CANCELLED_BEFORE) && c.printable(INTERRUPTED)
  {
  }

  /** Every rerun that is due is forced. */
  ghost predicate DueForced(plan: seq<PlanStage>, desk: Desk, forced: set<string>)
    requires |desk.records| == |plan|
  {
    forall j :: 0 <= j < |plan| && desk.records[j].rerunRequired ==> plan[j].id in forced
  }

  /** What is due changes only at the stage that is visited, and only to be met. */
  lemma VisitKeepsDue(plan: seq<PlanStage>, desk: Desk, k: nat, visit: Visit, forced: set<string>,
                      invalidated: set<string>, resume: bool)
    requires k < |desk.records| == |plan| && Fits(desk)
    ensures var t := Visited(plan, desk, k, visit, forced, invalidated, resume);
      forall j :: 0 <= j < |plan| && t.part.desk.records[j].rerunRequired ==> desk.records[j].rerunRequired
  {
    hide FrontierOf, FirstKept;
    if !visit.cancelledBefore {
      var f := FrontierOf(plan, {plan[k].id});
      InvalidationKeepsDue(f, k, visit.otherwise, desk, 0);
      BuildKeepsDue(desk, k, visit.attempt);
      BuildKeepsDue(Invalidation(f, k, visit.otherwise, desk, 0).desk, k, visit.attempt);
      hide Invalidation, Build;
    }
  }

  lemma BuildKeepsDue(desk: Desk, k: nat, attempt: Attempt)
    requires k < |desk.records| && Fits(desk)
    ensures var p := Build(desk, k, attempt);
      && (forall j :: 0 <= j < |desk.records| && p.desk.records[j].rerunRequired ==> desk.records[j].rerunRequired)
      && (forall j :: 0 <= j < |desk.records| && j != k ==> p.desk.records[j] == desk.records[j])
  {
  }

  lemma {:induction false} InvalidationKeepsDue(f: set<string>, k: nat, decision: Decision, desk: Desk, j: nat)
    requires j <= |desk.records|
    ensures var p := Invalidation(f, k, decision, desk, j);
      forall i :: 0 <= i < |desk.records| ==> p.desk.records[i].rerunRequired == desk.records[i].rerunRequired
    decreases |desk.records| - j
  {
    hide Why;
    if j < |desk.records| {
      var one := Change(Invalidating(j), desk, j, InvalidatedRecord(desk.records[j], Why(k, j, decision)));
      InvalidationKeepsDue(f, k, decision, one.desk, j + 1);
      InvalidationKeepsDue(f, k, decision, desk, j + 1);
    }
  }

  lemma {:induction false} ProperVisits(c: Context, plan: seq<PlanStage>, desk: Desk, k: nat, visits: seq<Visit>,
                                        forced: set<string>, invalidated: set<string>, resume: bool)
    requires Speaks(c) && ValidPlan(plan) && OrderlyDesk(plan, desk) && k <= |plan| == |visits| == |desk.records|
    requires DoneTo(desk, k) && DueForced(plan, desk, forced)
    requires forall i :: 0 <= i < |plan| ==> PlausibleVisit(c, visits[i])
    ensures |plan| == |desk.store|
    ensures var p := Visits(plan, desk, k, visits, forced, invalidated, resume);
      ProperPart(c, plan, desk, p) && (p.end.None? ==> DoneTo(p.desk, |plan|))
    decreases |plan| - k
  {
    OrderlyMeans(plan, desk);
    hide ProperPart, ValidPlan, OrderlyDesk, Visited, Speaks, PlausibleVisit, DoneTo;
    if k == |plan| {
      ProperIdle(c, plan, desk);
    } else {
      var t := Visited(plan, desk, k, visits[k], forced, invalidated, resume);
      assert Building(plan, desk, k);
      ProperVisit(c, plan, desk, k, visits[k], forced, invalidated, resume);
      PartIsOrderly(c, plan, desk, t.part);
      VisitKeepsDue(plan, desk, k, visits[k], forced, invalidated, resume);
      if t.part.end.None? {
        ProperVisits(c, plan, t.part.desk, k + 1, visits, forced, t.invalidated, resume);
      }
      ProperThen(c, plan, desk, t.part,
                 Visits(plan, t.part.desk, k + 1, visits, forced, t.invalidated, resume));
    }
  }

  lemma ProperEnded(c: Context, plan: seq<PlanStage>, desk: Desk, ending: RunExecution.Ending)
    requires OrderlyDesk(plan, desk) && |desk.records| == |plan| && DoneTo(desk, |plan|)
    requires PlausibleEnding(c, ending)
    ensures ProperPart(c, plan, desk, Ended(desk, ending))
  {
    hide ProperPart, OrderlyDesk, ValidOutputs;
    match ending {
      case EndFails(message) =>
        CarriesNothing(c, RunState.Failed, desk.records, Some(message));
        ProperNote(c, plan, desk, Step(Kind.Ending, RunState.Failed, desk.records, [], None, Some(message)),
                   Some(End.Failed));
      case EndCancelled(message) =>
        ProperCancel(c, plan, desk, message);
      case EndCompletes(outputs, delivery, cancelledAfter) =>
        var s := Step(Kind.Ending, RunState.Complete, desk.records, outputs, Some(delivery), None);
        assert CarriesValid(c, s.state, s.stages, s.outputs, s.delivery, s.diagnostic);
        if cancelledAfter.None? {
          ProperNote(c, plan, desk, s, Some(Finished));
        } else {
          ProperNote(c, plan, desk, s, None);
          ProperCancel(c, plan, desk, cancelledAfter.value);
          ProperThen(c, plan, desk, Part([Revise(s)], desk, None), CancelBetween(desk, cancelledAfter.value));
        }
    }
  }

  // ----------------------------------------------------------------------- reruns

  lemma {:induction false} MergeHas(known: seq<string>, more: seq<string>)
    ensures forall d :: d in Merge(known, more) <==> d in known || d in more
    decreases |more|
  {
    if more != [] {
      MergeHas(if more[0] in known then known else known + [more[0]], more[1..]);
      assert more == [more[0]] + more[1..];
    }
  }

  lemma MarkedFits(r: Record, files: seq<string>, damaged: set<string>)
    requires StageFits(r, files)
    ensures StageFits(MarkedRecord(r, Visible(files, damaged)), files)
  {
    hide Merge;
    var visible := Visible(files, damaged);
    MergeHas(r.excluded, visible);
    forall i | 0 <= i < |Merge(r.excluded, visible)| ensures Merge(r.excluded, visible)[i] in files {
      assert Merge(r.excluded, visible)[i] in Merge(r.excluded, visible);
    }
  }

  lemma ForcedIsClosed(plan: seq<PlanStage>, desk: Desk, selected: set<string>, i: nat, j: nat)
    requires ValidPlan(plan) && OrderlyDesk(plan, desk) && i < |plan| && j < |plan| && Reaches(plan, j, i)
    requires plan[i].id in Forced(plan, desk.records, selected)
    ensures plan[j].id in Forced(plan, desk.records, selected)
  {
    AlignedMeans(plan, desk.records);
    FrontierMeans(plan, selected, i);
    FrontierMeans(plan, selected, j);
    if plan[i].id in FrontierOf(plan, selected) {
      if plan[i].id !in selected {
        var r :| 0 <= r < |plan| && plan[r].id in selected && Reaches(plan, i, r);
        ReachesTransitive(plan, j, i, r);
      }
      assert Below(plan, selected, j);
    } else {
      var m :| 0 <= m < |desk.records| && desk.records[m].rerunRequired && desk.records[m].stageId == plan[i].id;
      SameIdSameStage(plan, m, i);
      assert desk.records[j].rerunRequired && desk.records[j].stageId in Due(desk.records);
    }
  }

  lemma ProperMarked(c: Context, plan: seq<PlanStage>, desk: Desk, selected: set<string>, damaged: set<string>)
    requires ValidPlan(plan) && OrderlyDesk(plan, desk) && |desk.records| == |plan| == |desk.store|
    ensures var forced := Forced(plan, desk.records, selected);
      var p := Marked(desk, forced, damaged);
      ProperPart(c, plan, desk, p) && p.end.None? && DueForced(plan, p.desk, forced)
  {
    hide ProperPart, ValidPlan, FrontierOf, Visible, StageFits, MarkedRecord;
    AlignedMeans(plan, desk.records);
    var forced := Forced(plan, desk.records, selected);
    forall j | 0 <= j < |plan| && desk.records[j].rerunRequired ensures plan[j].id in forced {
      assert desk.records[j].stageId in Due(desk.records);
    }
    if forced == {} {
      ProperIdle(c, plan, desk);
    } else {
      var after := desk.(records := MarkRecords(desk, forced, damaged));
      MarkIsOrderly(plan, desk, selected, damaged);
      hide OrderlyDesk, CarriesValid, StartsReady;
      CarriesNothing(c, RunState.Running, after.records, None);
      var s := Step(Marking, RunState.Running, after.records, [], None, None);
      ProperOne(c, plan, desk, Revise(s), None);
    }
  }

  lemma MarkIsOrderly(plan: seq<PlanStage>, desk: Desk, selected: set<string>, damaged: set<string>)
    requires ValidPlan(plan) && OrderlyDesk(plan, desk) && |desk.records| == |plan| == |desk.store|
    ensures var forced := Forced(plan, desk.records, selected);
      var after := desk.(records := MarkRecords(desk, forced, damaged));
      && OrderlyDesk(plan, after)
      && StartsReady(plan, desk.records, after.records)
      && (forall j :: 0 <= j < |plan| ==> (after.records[j].rerunRequired <==> plan[j].id in forced))
  {
    hide ValidPlan, FrontierOf, Visible, StageFits, Merge;
    AlignedMeans(plan, desk.records);
    var forced := Forced(plan, desk.records, selected);
    var records := MarkRecords(desk, forced, damaged);
    assert StageIds(records) == StageIds(desk.records);
    forall j | 0 <= j < |plan| ensures StageFits(records[j], desk.store[j]) {
      MarkedFits(desk.records[j], desk.store[j], damaged);
    }
    forall j | 0 <= j < |plan| ensures records[j].rerunRequired <==> plan[j].id in forced {
      if desk.records[j].rerunRequired {
        assert desk.records[j].stageId in Due(desk.records);
      }
    }
    forall i, j | 0 <= i < |plan| && 0 <= j < |plan| && records[i].rerunRequired && Reaches(plan, j, i)
      ensures records[j].rerunRequired
    {
      ForcedIsClosed(plan, desk, selected, i, j);
    }
  }

  // --------------------------------------------------------------------- sessions

  lemma ProperSession(c: Context, plan: seq<PlanStage>, desk: Desk, resume: bool, selected: set<string>, script: Script)
    requires Speaks(c) && ValidPlan(plan) && OrderlyDesk(plan, desk) && Plausible(c, |plan|, script)
    ensures |desk.records| == |plan| == |desk.store|
    ensures ProperPart(c, plan, desk, SessionPart(plan, desk, resume, selected, script))
  {
    OrderlyMeans(plan, desk);
    hide ProperPart, ValidPlan, OrderlyDesk, Visits, Speaks, PlausibleVisit, PlausibleEnding, Marked, Ended, Forced;
    var forced := Forced(plan, desk.records, selected);
    var marked := Marked(desk, forced, script.damaged);
    ProperMarked(c, plan, desk, selected, script.damaged);
    PartIsOrderly(c, plan, desk, marked);
    var visited := Visits(plan, marked.desk, 0, script.visits, forced, {}, resume);
    ProperVisits(c, plan, marked.desk, 0, script.visits, forced, {}, resume);
    PartIsOrderly(c, plan, marked.desk, visited);
    var ended := Ended(visited.desk, script.ending);
    if visited.end.None? {
      ProperEnded(c, plan, visited.desk, script.ending);
    }
    ProperThen(c, plan, marked.desk, visited, ended);
    ProperThen(c, plan, desk, marked, Then(visited, ended));
  }

  lemma ProperResumed(c: Context, plan: seq<PlanStage>, state: RunState, desk: Desk, selected: set<string>,
                      script: Script)
    requires Speaks(c) && ValidPlan(plan) && OrderlyDesk(plan, desk) && Plausible(c, |plan|, script)
    ensures |desk.records| == |plan| == |desk.store|
    ensures ProperPart(c, plan, desk, ResumedPart(plan, state, desk, selected, script))
  {
    ProperSession(c, plan, desk, true, selected, script);
    SpeaksOfCancelling(c);
    hide ProperPart, ValidPlan, OrderlyDesk, Speaks, Plausible, SessionPart;
    var session := SessionPart(plan, desk, true, selected, script);
    if state.Running? {
      CarriesNothing(c, Interrupted, desk.records, Some(INTERRUPTED));
      var s := Step(Interrupting, Interrupted, desk.records, [], None, Some(INTERRUPTED));
      ProperNote(c, plan, desk, s, None);
      ProperThen(c, plan, desk, Part([Revise(s)], desk, None), session);
    } else {
      ProperIdle(c, plan, desk);
      ProperThen(c, plan, desk, Idle(desk), session);
    }
  }

  lemma FreshIsSound(c: Context, plan: seq<PlanStage>, clock: nat -> int, runId: string, planDigest: string)
    requires ValidPlan(plan)
    ensures Sound(c, plan, FreshDisk(c, plan, clock, runId, planDigest))
  {
    FreshIsValid(c, plan, clock, runId, planDigest);
    var d := FreshDisk(c, plan, clock, runId, planDigest);
    hide ValidChain, ValidManifest, ValidPlan, Reaches;
    assert |d.chain| == 1;
  }

  /** One session: the stages to rerun, what happens, and how many of its effects reach the
      disk before the process dies, if it lives to have more. */
  datatype Sitting = Sitting(selected: set<string>, script: Script, survives: nat)

  function Surviving(effects: seq<Effect>, n: nat): seq<Effect> {
    if n < |effects| then effects[..n] else effects
  }

  /** The disk after some resumptions. */
  ghost function AfterSittings(c: Context, plan: seq<PlanStage>, clock: nat -> int, d: Disk, later: seq<Sitting>): Disk
    requires d.chain != []
    decreases |later|
  {
    if later == [] || |Last(d.chain).payload.stages| != |plan| || |d.store| != |plan|
       || |later[0].script.visits| != |plan| then d
    else
      var last := Last(d.chain).payload;
      var p := ResumedPart(plan, last.state, Desk(last.stages, d.store), later[0].selected, later[0].script);
      AfterSittings(c, plan, clock, Perform(c, clock, d, Surviving(p.effects, later[0].survives)).disk, later[1..])
  }

  /** Every run there can be. */
  ghost function RunOf(c: Context, plan: seq<PlanStage>, clock: nat -> int, runId: string, planDigest: string,
                       first: Sitting, later: seq<Sitting>): Disk
    requires |first.script.visits| == |plan|
  {
    var d := FreshDisk(c, plan, clock, runId, planDigest);
    var p := SessionPart(plan, Desk(FreshRecords(plan), d.store), false, first.selected, first.script);
    AfterSittings(c, plan, clock, Perform(c, clock, d, Surviving(p.effects, first.survives)).disk, later)
  }

  lemma SurvivingIsSound(c: Context, plan: seq<PlanStage>, clock: nat -> int, d: Disk, p: Part, n: nat)
    requires Sound(c, plan, d) && |Last(d.chain).payload.stages| == |plan|
    requires ProperPart(c, plan, Desk(Last(d.chain).payload.stages, d.store), p)
    ensures Sound(c, plan, Perform(c, clock, d, Surviving(p.effects, n)).disk)
    ensures d.chain <= Perform(c, clock, d, Surviving(p.effects, n)).disk.chain
  {
    var desk := Desk(Last(d.chain).payload.stages, d.store);
    assert OrderlyDesk(plan, desk);
    hide Sound, OrderlyDesk, Perform, Proper;
    if n < |p.effects| {
      ProperPrefix(c, plan, desk, p.effects, n);
    }
    PerformIsSound(c, plan, clock, d, Surviving(p.effects, n));
  }

  lemma {:induction false} SittingsAreSafe(c: Context, plan: seq<PlanStage>, clock: nat -> int, d: Disk,
                                           later: seq<Sitting>)
    requires Speaks(c) && ValidPlan(plan) && Sound(c, plan, d)
    requires forall i :: 0 <= i < |later| ==> Plausible(c, |plan|, later[i].script)
    ensures Sound(c, plan, AfterSittings(c, plan, clock, d, later))
    ensures d.chain <= AfterSittings(c, plan, clock, d, later).chain
    decreases |later|
  {
    SoundMeans(c, plan, d);
    if later != [] {
      var last := Last(d.chain).payload;
      var desk := Desk(last.stages, d.store);
      assert OrderlyDesk(plan, desk) && Plausible(c, |plan|, later[0].script);
      hide Sound, OrderlyDesk, ValidPlan, Speaks, PlausibleVisit, PlausibleEnding, ProperPart, ResumedPart, Perform;
      ProperResumed(c, plan, last.state, desk, later[0].selected, later[0].script);
      var p := ResumedPart(plan, last.state, desk, later[0].selected, later[0].script);
      SurvivingIsSound(c, plan, clock, d, p, later[0].survives);
      var next := Perform(c, clock, d, Surviving(p.effects, later[0].survives)).disk;
      SittingsAreSafe(c, plan, clock, next, later[1..]);
    }
  }

  /** Every run there can be, a first session and any number of resumptions, each of which
      may be refused or may die between any two of its effects, keeps on disk one valid
      chain in which no stage ever started before its dependencies were complete, a store
      that holds whatever is accepted or excluded, and reruns that are due down to the last dependent. */
  lemma EveryRunIsSafe(c: Context, plan: seq<PlanStage>, clock: nat -> int, runId: string, planDigest: string,
                       first: Sitting, later: seq<Sitting>)
    requires Speaks(c) && ValidPlan(plan) && Plausible(c, |plan|, first.script)
    requires forall i :: 0 <= i < |later| ==> Plausible(c, |plan|, later[i].script)
    ensures Sound(c, plan, RunOf(c, plan, clock, runId, planDigest, first, later))
    ensures FreshDisk(c, plan, clock, runId, planDigest).chain
      <= RunOf(c, plan, clock, runId, planDigest, first, later).chain
  {
    FreshIsSound(c, plan, clock, runId, planDigest);
    FreshIsValid(c, plan, clock, runId, planDigest);
    var d := FreshDisk(c, plan, clock, runId, planDigest);
    var desk := Desk(FreshRecords(plan), d.store);
    assert OrderlyDesk(plan, desk);
    hide Sound, OrderlyDesk, ValidPlan, Speaks, Plausible, ProperPart, SessionPart, Perform, FreshDisk;
    ProperSession(c, plan, desk, false, first.selected, first.script);
    var p := SessionPart(plan, desk, false, first.selected, first.script);
    SurvivingIsSound(c, plan, clock, d, p, first.survives);
    SittingsAreSafe(c, plan, clock, Perform(c, clock, d, Surviving(p.effects, first.survives)).disk, later);
  }
}
