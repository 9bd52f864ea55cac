/** `execute_plan` of src/run_v3.rs as a state machine over manifest revisions: every point at
    which it can fail, be cancelled or be resumed, against the lifecycle rules it must obey. */
module RunExecution {
  import opened Distinctness
  import opened RunManifests
  import opened Widths
  import opened Wrappers

  datatype PlanStage = PlanStage(id: string, dependsOn: seq<string>)

  function PlanIds(plan: seq<PlanStage>): seq<string> {
    seq(|plan|, i requires 0 <= i < |plan| => plan[i].id)
  }

  ghost predicate DependsOnEarlier(plan: seq<PlanStage>, i: nat)
    requires i < |plan|
  {
    forall d :: d in plan[i].dependsOn ==> exists j :: 0 <= j < i && plan[j].id == d
  }

  /** What planning establishes: distinct stages that depend on earlier ones. */
  ghost predicate ValidPlan(plan: seq<PlanStage>) {
    && plan != []
    && Distinct(PlanIds(plan))
    && forall i :: 0 <= i < |plan| ==> DependsOnEarlier(plan, i)
  }

  predicate Aligned(plan: seq<PlanStage>, records: seq<Record>) {
    StageIds(records) == PlanIds(plan)
  }

  // ----------------------------------------------------------------------- frontier

  predicate Touches(stage: PlanStage, f: set<string>) {
    exists i :: 0 <= i < |stage.dependsOn| && stage.dependsOn[i] in f
  }

  ghost predicate ClosedUnder(plan: seq<PlanStage>, f: set<string>) {
    forall i :: 0 <= i < |plan| && Touches(plan[i], f) ==> plan[i].id in f
  }

  /** The roots and everything that depends on them, directly or not: the least closed set. */
  ghost predicate IsFrontier(plan: seq<PlanStage>, roots: set<string>, f: set<string>) {
    && roots <= f && ClosedUnder(plan, f)
    && forall g :: roots <= g && ClosedUnder(plan, g) ==> f <= g
  }

  /** The loops of `rerun_frontier` and `invalidate_stage_frontier`: passes over the plan
      until one adds nothing. */
  method Frontier(plan: seq<PlanStage>, roots: set<string>) returns (f: set<string>)
    ensures IsFrontier(plan, roots, f)
  {
    f := roots;
    ghost var universe := roots + set i | 0 <= i < |plan| :: plan[i].id;
    while true
      invariant roots <= f <= universe
      invariant forall g :: roots <= g && ClosedUnder(plan, g) ==> f <= g
      decreases |universe - f|
    {
      var before := f;
      for i := 0 to |plan|
        invariant before <= f <= universe
        invariant forall g :: roots <= g && ClosedUnder(plan, g) ==> f <= g
        invariant f == before ==> forall k :: 0 <= k < i && Touches(plan[k], f) ==> plan[k].id in f
      {
        if Touches(plan[i], f) {
          TouchesGrows(plan, i, f, roots);
          f := f + {plan[i].id};
        }
      }
      SameSizeSame(before, f);
      if |f| == |before| {
        return;
      }
      SmallerRest(universe, before, f);
    }
  }

  lemma TouchesGrows(plan: seq<PlanStage>, i: nat, f: set<string>, roots: set<string>)
    requires i < |plan| && Touches(plan[i], f)
    ensures forall g :: f <= g && ClosedUnder(plan, g) ==> plan[i].id in g
  {
    forall g | f <= g && ClosedUnder(plan, g) ensures plan[i].id in g {
      assert Touches(plan[i], g);
    }
  }

  lemma SameSizeSame(small: set<string>, large: set<string>)
    requires small <= large
    ensures |small| == |large| <==> small == large
  {
    assert |large - small| == |large| - |small|;
  }

  lemma SmallerRest(universe: set<string>, small: set<string>, large: set<string>)
    requires small <= large <= universe && small != large
    ensures |universe - large| < |universe - small|
  {
    SameSizeSame(small, large);
    assert (universe - small) - (large - small) == universe - large;
    assert |(universe - small) - (large - small)| == |universe - small| - |large - small|;
  }

  lemma SameIdSameStage(plan: seq<PlanStage>, i: nat, j: nat)
    requires Distinct(PlanIds(plan)) && i < |plan| && j < |plan| && plan[i].id == plan[j].id
    ensures i == j
  {
    assert PlanIds(plan)[i] == PlanIds(plan)[j];
  }

  // --------------------------------------------------------------- readiness of starts

  /** A stage that starts has all its dependencies complete in the same revision. */
  ghost predicate StartsReady(plan: seq<PlanStage>, before: seq<Record>, after: seq<Record>)
    requires |before| == |after| == |plan|
  {
    forall s, d :: 0 <= s < |plan| && after[s].state.Running? && !before[s].state.Running? && 0 <= d < |plan| ==>
      plan[d].id in plan[s].dependsOn ==> after[d].state.Complete?
  }

  ghost predicate Planned(plan: seq<PlanStage>, chain: seq<Manifest>) {
    forall i :: 0 <= i < |chain| ==> |chain[i].payload.stages| == |plan|
  }

  /** Over a whole run, no stage ever starts before everything it depends on is complete. */
  ghost predicate DependenciesReady(plan: seq<PlanStage>, chain: seq<Manifest>) {
    && Planned(plan, chain)
    && forall i :: 0 < i < |chain| ==>
         StartsReady(plan, chain[i - 1].payload.stages, chain[i].payload.stages)
  }

  lemma ReadyOneMore(plan: seq<PlanStage>, chain: seq<Manifest>, next: Manifest)
    requires chain != [] && DependenciesReady(plan, chain) && |next.payload.stages| == |plan|
    requires StartsReady(plan, chain[|chain| - 1].payload.stages, next.payload.stages)
    ensures DependenciesReady(plan, chain + [next])
  {
    hide StartsReady;
    var longer := chain + [next];
    forall i | 0 < i < |longer|
      ensures |longer[i - 1].payload.stages| == |longer[i].payload.stages| == |plan|
      ensures StartsReady(plan, longer[i - 1].payload.stages, longer[i].payload.stages)
    {
      assert longer[i - 1] == chain[i - 1];
      if i < |chain| {
        assert longer[i] == chain[i];
      }
    }
    forall i | 0 <= i < |longer| ensures |longer[i].payload.stages| == |plan| {
      if i < |chain| {
        assert longer[i] == chain[i];
      }
    }
  }

  // ---------------------------------------------------------------------- revisions

  function Later(now: int, before: int): int {
    if now < before then before else now
  }

  /** `next_revision`, and `with_delivery` for the last one. */
  function NextManifest(c: Context, last: Manifest, state: RunState, records: seq<Record>, outputs: seq<Output>,
                        delivery: Option<string>, diagnostic: Option<string>, now: int): Manifest {
    var p := Payload(
      last.payload.runId, last.payload.plan, last.payload.revision + 1, Some(last.digest),
      last.payload.createdAt, Later(now, last.payload.updatedAt), state, records, outputs, delivery, diagnostic);
    Manifest(c.hash(p), p)
  }

  function Last(chain: seq<Manifest>): Manifest
    requires chain != []
  {
    chain[|chain| - 1]
  }

  /** What a revision carries besides its stages. */
  ghost predicate CarriesValid(c: Context, state: RunState, stages: seq<Record>, outputs: seq<Output>,
                               delivery: Option<string>, diagnostic: Option<string>) {
    && (delivery.Some? ==> state.Complete?)
    && ValidOutputs(outputs)
    && (if state.Complete? then outputs != [] && AllInState(stages, StageState.Complete) else outputs == [])
    && (diagnostic.Some? ==> c.printable(diagnostic.value))
  }

  /** Exactly when the next revision is accepted. */
  lemma NextAccepted(c: Context, chain: seq<Manifest>, state: RunState, records: seq<Record>,
                     outputs: seq<Output>, delivery: Option<string>, diagnostic: Option<string>, now: int)
    requires ValidChain(c, chain) && chain != []
    requires StageIds(records) == StageIds(Last(chain).payload.stages)
    requires CarriesValid(c, state, records, outputs, delivery, diagnostic)
    ensures |records| == |Last(chain).payload.stages|
    ensures ValidChain(c, chain + [NextManifest(c, Last(chain), state, records, outputs, delivery, diagnostic, now)])
      <==>
        && |chain| + 1 < U64_LIMIT
        && (forall i :: 0 <= i < |records| ==> ValidRecord(c, records[i]))
        && StagesStep(Last(chain).payload.stages, records)
        && RunAllowed(Last(chain).payload.state, state)
  {
    var next := NextManifest(c, Last(chain), state, records, outputs, delivery, diagnostic, now);
    LastIsValid(c, chain);
    SameIdsSameLength(Last(chain).payload.stages, records);
    hide ValidRecord, StagesStep, RunAllowed, ValidOutputs, AllInState;
    ChainOneMore(c, chain, next);
    hide ValidChain;
  }

  lemma LastIsValid(c: Context, chain: seq<Manifest>)
    requires ValidChain(c, chain) && chain != []
    ensures ValidManifest(c, Last(chain)) && Last(chain).payload.revision == |chain|
    ensures forall i :: 0 <= i < |Last(chain).payload.stages| ==> ValidRecord(c, Last(chain).payload.stages[i])
  {
    hide Follows, ValidRecord;
    assert ValidManifest(c, chain[|chain| - 1]);
  }

  /** When a single record changes, only that change is judged. */
  lemma OneChange(c: Context, before: seq<Record>, k: nat, r: Record)
    requires k < |before| && forall i :: 0 <= i < |before| ==> ValidRecord(c, before[i])
    ensures var after := before[k := r];
      && ((forall i :: 0 <= i < |after| ==> ValidRecord(c, after[i])) <==> ValidRecord(c, r))
      && (StagesStep(before, after) <==> before[k] == r || StageStep(before[k], r))
  {
    hide ValidRecord, StageStep, IsRerunMark;
    var after := before[k := r];
    assert after[k] == r;
    forall i | 0 <= i < |before| && before[i] != after[i] ensures i == k {
    }
  }

  lemma SameIdsAfterChange(before: seq<Record>, k: nat, r: Record)
    requires k < |before| && r.stageId == before[k].stageId
    ensures StageIds(before[k := r]) == StageIds(before)
  {
  }

  // ------------------------------------------------------------------------ scripts

  /** A stage that fails, or is cancelled, with what is told the operator. */
  datatype Stop = Stop(cancelled: bool, message: string)

  /** What happens to a stage that is built. Once its outputs are accepted it publishes a
      checkpoint under its digest; an existing file is never replaced. */
  datatype Attempt =
    | StopsAtInputs(stop: Stop)
    | StopsRunning(stop: Stop)
    | StopsValidating(stop: Stop)
    | Publishes(digest: string, collision: Stop, next: AfterPublication)

  datatype AfterPublication =
    | StopsPublished(stop: Stop)
    | CancelledLate(message: string)
    | Completes(cacheMessage: Option<string>, cancelledAfter: Option<string>)

  /** What the surroundings do while one stage is visited: cancellation, the checkpoints
      found compatible (newest first), the reason if none is, and the attempt. */
  datatype Visit = Visit(cancelledBefore: bool, compatible: seq<string>, otherwise: Decision, attempt: Attempt)

  datatype Ending =
    | EndFails(message: string)
    | EndCancelled(message: string)
    | EndCompletes(outputs: seq<Output>, delivery: string, cancelledAfter: Option<string>)

  /** One session: a visit for each stage, the checkpoint files that cannot be read, and
      the end. */
  datatype Script = Script(visits: seq<Visit>, damaged: set<string>, ending: Ending)

  const REUSED := "reused compatible stage checkpoint"
  const REBUILT := "checkpoint evidence is incompatible and will be rebuilt"
  const RERUN := "explicit rerun bypasses checkpoint and cache reuse"
  const CANCELLED_BEFORE := "cancellation requested before provider execution"
  const INTERRUPTED := "resume observed a run without a terminal revision"
  const DEPENDENCY_CHANGED := "a declared dependency was invalidated in this resume"
  const EXPLICIT_RERUN := "explicit stage rerun or dependent frontier"

  const REUSABLE := Decision(true, [])
  const DEPENDENCY_DECISION := Decision(false, [Reason(DependencyChanged, DEPENDENCY_CHANGED)])
  const RERUN_DECISION := Decision(false, [Reason(ExplicitRerun, EXPLICIT_RERUN)])

  /** The texts the executor itself writes are printable. */
  ghost predicate Speaks(c: Context) {
    && c.printable(REUSED) && c.printable(REBUILT) && c.printable(RERUN) && c.printable(CANCELLED_BEFORE)
    && c.printable(INTERRUPTED) && c.printable(DEPENDENCY_CHANGED) && c.printable(EXPLICIT_RERUN)
  }

  ghost predicate PlausibleNext(c: Context, next: AfterPublication) {
    match next
    case StopsPublished(stop) => c.printable(stop.message)
    case CancelledLate(message) => c.printable(message)
    case Completes(cacheMessage, cancelledAfter) =>
      && (cacheMessage.Some? ==> c.printable(cacheMessage.value))
      && (cancelledAfter.Some? ==> c.printable(cancelledAfter.value))
  }

  ghost predicate PlausibleAttempt(c: Context, a: Attempt) {
    match a
    case StopsAtInputs(stop) => c.printable(stop.message)
    case StopsRunning(stop) => c.printable(stop.message)
    case StopsValidating(stop) => c.printable(stop.message)
    case Publishes(_, collision, next) => c.printable(collision.message) && PlausibleNext(c, next)
  }

  ghost predicate PlausibleVisit(c: Context, v: Visit) {
    ValidDecision(c, v.otherwise) && !v.otherwise.reusable && PlausibleAttempt(c, v.attempt)
  }

  ghost predicate PlausibleEnding(c: Context, e: Ending) {
    match e
    case EndFails(message) => c.printable(message)
    case EndCancelled(message) => c.printable(message)
    case EndCompletes(outputs, _, cancelledAfter) =>
      outputs != [] && ValidOutputs(outputs) && (cancelledAfter.Some? ==> c.printable(cancelledAfter.value))
  }

  /** The texts and evidence of a script are such as the code would record. */
  ghost predicate Plausible(c: Context, n: nat, script: Script) {
    && |script.visits| == n
    && (forall k :: 0 <= k < n ==> PlausibleVisit(c, script.visits[k]))
    && PlausibleEnding(c, script.ending)
  }

  // ---------------------------------------------------------- the records it proposes

  function ReusedRecord(r: Record, checkpoint: Reference): Record {
    r.(state := StageState.Complete, checkpoint := Some(checkpoint), compatibility := Some(REUSABLE),
       message := Some(REUSED))
  }

  function InvalidatedRecord(r: Record, decision: Decision): Record {
    r.(state := Invalidated, checkpoint := None, compatibility := Some(decision), message := Some(REBUILT))
  }

  function StartedRecord(r: Record): Record {
    r.(state := StageState.Running, checkpoint := None, compatibility := None, message := None)
  }

  function StoppedRecord(r: Record, cancelled: bool, message: string): Record {
    r.(state := if cancelled then StageState.Cancelled else StageState.Failed,
       checkpoint := None, compatibility := None, message := Some(message))
  }

  function CompletedRecord(r: Record, checkpoint: Reference, message: Option<string>): Record {
    r.(rerunRequired := false, state := StageState.Complete, checkpoint := Some(checkpoint),
       compatibility := None, message := message)
  }

  function Merge(known: seq<string>, more: seq<string>): seq<string>
    decreases |more|
  {
    if more == [] then known
    else Merge(if more[0] in known then known else known + [more[0]], more[1..])
  }

  function MarkedRecord(r: Record, candidates: seq<string>): Record {
    r.(rerunRequired := true, excluded := Merge(r.excluded, candidates), state := Invalidated,
       checkpoint := None, compatibility := Some(RERUN_DECISION), message := Some(RERUN))
  }

  lemma {:induction false} MergeKeeps(known: seq<string>, more: seq<string>)
    requires Distinct(known)
    ensures Distinct(Merge(known, more))
    ensures forall d :: d in Merge(known, more) <==> d in known || d in more
    decreases |more|
  {
    if more != [] {
      DistinctOneMore(known, more[0]);
      MergeKeeps(if more[0] in known then known else known + [more[0]], more[1..]);
      assert more == [more[0]] + more[1..];
    }
  }

  // ------------------------------------------- which of them the stage rules accept

  ghost predicate Accepts(c: Context, before: Record, after: Record) {
    ValidRecord(c, after) && (before == after || StageStep(before, after))
  }

  /** Reuse is accepted exactly from a state that has been worked on, and a complete stage
      keeps its checkpoint. */
  lemma ReuseAccepted(c: Context, r: Record, checkpoint: Reference)
    requires Speaks(c) && ValidRecord(c, r) && !r.rerunRequired && !r.state.Skipped?
    requires checkpoint.stageId == r.stageId && checkpoint.sha256 !in r.excluded
    ensures Accepts(c, r, ReusedRecord(r, checkpoint)) <==>
      !r.state.Pending? && (r.state.Complete? ==> r.checkpoint == Some(checkpoint))
  {
  }

  /** Invalidation is accepted except where a stage already invalidated, with no rerun
      due, would change its explanation. */
  lemma InvalidationAccepted(c: Context, r: Record, decision: Decision)
    requires Speaks(c) && ValidRecord(c, r) && ValidDecision(c, decision) && !decision.reusable
    ensures Accepts(c, r, InvalidatedRecord(r, decision)) <==>
      (r.state.Invalidated? && !r.rerunRequired ==> InvalidatedRecord(r, decision) == r)
  {
  }

  lemma StartAccepted(c: Context, r: Record)
    requires ValidRecord(c, r) && (r.state.Pending? || r.state.Invalidated?)
    ensures Accepts(c, r, StartedRecord(r))
  {
  }

  lemma StopAccepted(c: Context, r: Record, cancelled: bool, message: string)
    requires ValidRecord(c, r) && c.printable(message)
    requires r.state.Pending? || r.state.Invalidated? || r.state.Running? || r.state.Validating?
    ensures Accepts(c, r, StoppedRecord(r, cancelled, message))
  {
  }

  lemma ValidatingAccepted(c: Context, r: Record)
    requires ValidRecord(c, r) && r.state.Running?
    ensures Accepts(c, r, r.(state := Validating))
  {
  }

  /** Completion is accepted exactly with a checkpoint that is not excluded. */
  lemma CompletionAccepted(c: Context, r: Record, checkpoint: Reference, message: Option<string>)
    requires ValidRecord(c, r) && r.state.Validating? && checkpoint.stageId == r.stageId
    requires message.Some? ==> c.printable(message.value)
    ensures Accepts(c, r, CompletedRecord(r, checkpoint, message)) <==> checkpoint.sha256 !in r.excluded
  {
  }

  /** A cancellation noticed after the rerun flag was cleared is accepted exactly when no
      rerun was due: otherwise it would drop the obligation, and is refused. */
  lemma CancelledCompletionAccepted(c: Context, r: Record, message: string)
    requires ValidRecord(c, r) && r.state.Validating? && c.printable(message)
    ensures Accepts(c, r, StoppedRecord(r.(rerunRequired := false), true, message)) <==> !r.rerunRequired
  {
  }

  /** Marking a rerun is always accepted. */
  lemma MarkAccepted(c: Context, r: Record, candidates: seq<string>)
    requires Speaks(c) && ValidRecord(c, r)
    ensures Accepts(c, r, MarkedRecord(r, candidates)) && IsRerunMark(MarkedRecord(r, candidates))
    ensures forall d :: d in candidates ==> d in MarkedRecord(r, candidates).excluded
  {
    MergeKeeps(r.excluded, candidates);
  }
}
