/** What a session of src/run_v3.rs does, as data: the revisions it proposes and the
    checkpoints it publishes, in order, and what becomes of them on disk. */
module RunTrace {
  import opened PipelineGraph
  import opened RunExecution
  import opened RunManifests
  import opened Widths
  import opened Wrappers

  /** What a revision records. */
  datatype Kind =
    | Interrupting
    | Marking
    | Reusing(stage: nat)
    | Invalidating(stage: nat)
    | Starting(stage: nat)
    | Checking(stage: nat)
    | Accepting(stage: nat)
    | LateCancelling(stage: nat)
    | Stopping(stage: nat)
    | Cancelling
    | Ending

  datatype Step = Step(
    kind: Kind, state: RunState, stages: seq<Record>,
    outputs: seq<Output>, delivery: Option<string>, diagnostic: Option<string>)

  datatype Effect = Revise(step: Step) | Publish(stage: nat, digest: string)

  datatype End = Finished | Cancelled | Failed

  /** The working records, and the digests of each stage's checkpoint files. */
  datatype Desk = Desk(records: seq<Record>, store: seq<seq<string>>)

  /** A part of a session: what it does, the desk it leaves, and whether it ends there. */
  datatype Part = Part(effects: seq<Effect>, desk: Desk, end: Option<End>)

  predicate Fits(desk: Desk) {
    |desk.records| == |desk.store|
  }

  predicate SameSize(desk: Desk, p: Part) {
    |p.desk.records| == |desk.records| && |p.desk.store| == |desk.store|
  }

  function Idle(desk: Desk): Part {
    Part([], desk, None)
  }

  function Then(first: Part, second: Part): Part {
    if first.end.Some? then first else Part(first.effects + second.effects, second.desk, second.end)
  }

  // ------------------------------------------------------------------------- stages

  function Change(kind: Kind, desk: Desk, k: nat, r: Record): (p: Part)
    requires k < |desk.records|
    ensures SameSize(desk, p)
  {
    var records := desk.records[k := r];
    Part([Revise(Step(kind, RunState.Running, records, [], None, None))], desk.(records := records), None)
  }

  /** `fail_stage`. */
  function StopAt(desk: Desk, k: nat, stop: Stop): (p: Part)
    requires k < |desk.records|
    ensures SameSize(desk, p)
  {
    var records := desk.records[k := StoppedRecord(desk.records[k], stop.cancelled, stop.message)];
    var state := if stop.cancelled then RunState.Cancelled else RunState.Failed;
    Part([Revise(Step(Stopping(k), state, records, [], None, Some(stop.message)))], desk.(records := records),
         Some(if stop.cancelled then End.Cancelled else End.Failed))
  }

  /** `persist_run_cancellation`. */
  function CancelBetween(desk: Desk, message: string): Part {
    Part([Revise(Step(Cancelling, RunState.Cancelled, desk.records, [], None, Some(message)))], desk,
         Some(End.Cancelled))
  }

  function Started(desk: Desk, k: nat): Part
    requires k < |desk.records|
  {
    Change(Starting(k), desk, k, StartedRecord(desk.records[k]))
  }

  function Checked(desk: Desk, k: nat): Part
    requires k < |desk.records|
  {
    Change(Checking(k), desk, k, desk.records[k].(state := Validating))
  }

  function Accepted(desk: Desk, k: nat, digest: string, message: Option<string>): Part
    requires k < |desk.records|
  {
    var r := desk.records[k];
    Change(Accepting(k), desk, k, CompletedRecord(r, Reference(r.stageId, digest), message))
  }

  /** The rerun flag has been cleared in memory when this cancellation is noticed. */
  function LateCancelled(desk: Desk, k: nat, message: string): (p: Part)
    requires k < |desk.records|
    ensures SameSize(desk, p)
  {
    var r := StoppedRecord(desk.records[k].(rerunRequired := false), true, message);
    var records := desk.records[k := r];
    Part([Revise(Step(LateCancelling(k), RunState.Cancelled, records, [], None, Some(message)))],
         desk.(records := records), Some(End.Cancelled))
  }

  function AfterPublished(desk: Desk, k: nat, digest: string, next: AfterPublication): (p: Part)
    requires k < |desk.records|
    ensures SameSize(desk, p)
  {
    match next
    case StopsPublished(stop) => StopAt(desk, k, stop)
    case CancelledLate(message) => LateCancelled(desk, k, message)
    case Completes(cacheMessage, cancelledAfter) =>
      var done := Accepted(desk, k, digest, cacheMessage);
      Then(done, if cancelledAfter.Some? then CancelBetween(done.desk, cancelledAfter.value) else Idle(done.desk))
  }

  /** `publish_stage_checkpoint` refuses a path that exists. */
  function Published(desk: Desk, k: nat, digest: string, collision: Stop, next: AfterPublication): (p: Part)
    requires k < |desk.records| && Fits(desk)
    ensures SameSize(desk, p)
  {
    if digest in desk.store[k] then StopAt(desk, k, collision)
    else
      var kept := desk.(store := desk.store[k := desk.store[k] + [digest]]);
      Then(Part([Publish(k, digest)], kept, None), AfterPublished(kept, k, digest, next))
  }

  function BuildChecked(desk: Desk, k: nat, attempt: Attempt): (p: Part)
    requires k < |desk.records| && Fits(desk) && !attempt.StopsAtInputs? && !attempt.StopsRunning?
    ensures SameSize(desk, p)
  {
    match attempt
    case StopsValidating(stop) => StopAt(desk, k, stop)
    case Publishes(digest, collision, next) => Published(desk, k, digest, collision, next)
  }

  function BuildRest(desk: Desk, k: nat, attempt: Attempt): (p: Part)
    requires k < |desk.records| && Fits(desk) && !attempt.StopsAtInputs?
    ensures SameSize(desk, p)
  {
    if attempt.StopsRunning? then StopAt(desk, k, attempt.stop)
    else
      var checked := Checked(desk, k);
      Then(checked, BuildChecked(checked.desk, k, attempt))
  }

  /** A stage is started, validated and completed, or stops on the way. */
  function Build(desk: Desk, k: nat, attempt: Attempt): (p: Part)
    requires k < |desk.records| && Fits(desk)
    ensures SameSize(desk, p)
  {
    if attempt.StopsAtInputs? then StopAt(desk, k, attempt.stop)
    else
      var started := Started(desk, k);
      Then(started, BuildRest(started.desk, k, attempt))
  }

  function Why(k: nat, j: nat, decision: Decision): Decision {
    if j == k then decision else DEPENDENCY_DECISION
  }

  /** `invalidate_stage_frontier`: one revision for every stage of the frontier, in order. */
  function Invalidation(f: set<string>, k: nat, decision: Decision, desk: Desk, j: nat): (p: Part)
    requires j <= |desk.records|
    ensures SameSize(desk, p)
    decreases |desk.records| - j
  {
    if j == |desk.records| then Idle(desk)
    else if desk.records[j].stageId in f then
      var one := Change(Invalidating(j), desk, j, InvalidatedRecord(desk.records[j], Why(k, j, decision)));
      Then(one, Invalidation(f, k, decision, one.desk, j + 1))
    else Invalidation(f, k, decision, desk, j + 1)
  }

  /** Of candidates in order, newest first, the first that is on disk and not excluded. */
  predicate FirstFit(compatible: seq<string>, excluded: seq<string>, files: seq<string>, i: nat) {
    && i < |compatible| && compatible[i] !in excluded && compatible[i] in files
    && forall j :: 0 <= j < i ==> compatible[j] in excluded || compatible[j] !in files
  }

  /** The newest compatible checkpoint that is on disk and not excluded. */
  function FirstKept(compatible: seq<string>, excluded: seq<string>, files: seq<string>): (r: Option<string>)
    ensures forall d :: r == Some(d) <==>
      exists i: nat :: FirstFit(compatible, excluded, files, i) && compatible[i] == d
    ensures r.None? ==> forall i :: 0 <= i < |compatible| ==> compatible[i] in excluded || compatible[i] !in files
  {
    if compatible == [] then None
    else if compatible[0] !in excluded && compatible[0] in files then
      assert FirstFit(compatible, excluded, files, 0);
      Some(compatible[0])
    else
      FitsLater(compatible, excluded, files);
      FirstKept(compatible[1..], excluded, files)
  }

  lemma FitsLater(compatible: seq<string>, excluded: seq<string>, files: seq<string>)
    requires compatible != [] && (compatible[0] in excluded || compatible[0] !in files)
    ensures forall i: nat ::
      FirstFit(compatible, excluded, files, i + 1) <==> FirstFit(compatible[1..], excluded, files, i)
    ensures !FirstFit(compatible, excluded, files, 0)
  {
    var rest := compatible[1..];
    forall i: nat ensures FirstFit(compatible, excluded, files, i + 1) <==> FirstFit(rest, excluded, files, i) {
      if FirstFit(rest, excluded, files, i) {
        forall j | 0 <= j < i + 1 ensures compatible[j] in excluded || compatible[j] !in files {
          assert j > 0 ==> compatible[j] == rest[j - 1];
        }
      }
      if FirstFit(compatible, excluded, files, i + 1) {
        forall j | 0 <= j < i ensures rest[j] in excluded || rest[j] !in files {
          assert rest[j] == compatible[j + 1];
        }
      }
    }
  }

  // ------------------------------------------------------------------------ sessions

  datatype Turn = Turn(part: Part, invalidated: set<string>)

  function Reused(desk: Desk, k: nat, digest: string): Part
    requires k < |desk.records|
  {
    Change(Reusing(k), desk, k, ReusedRecord(desk.records[k], Reference(desk.records[k].stageId, digest)))
  }

  /** One turn of the loop over stages: cancelled, reused, or built, after everything that
      depends on it has been invalidated where its checkpoints do not fit. */
  ghost function Visited(plan: seq<PlanStage>, desk: Desk, k: nat, visit: Visit, forced: set<string>,
                         invalidated: set<string>, resume: bool): (t: Turn)
    requires k < |desk.records| == |plan| && Fits(desk)
    ensures SameSize(desk, t.part)
  {
    if visit.cancelledBefore then Turn(CancelBetween(desk, CANCELLED_BEFORE), invalidated)
    else if resume && plan[k].id !in forced && plan[k].id !in invalidated then
      match FirstKept(visit.compatible, desk.records[k].excluded, desk.store[k])
      case Some(digest) => Turn(Reused(desk, k, digest), invalidated)
      case None =>
        var f := FrontierOf(plan, {plan[k].id});
        var cleared := Invalidation(f, k, visit.otherwise, desk, 0);
        Turn(Then(cleared, Build(cleared.desk, k, visit.attempt)), invalidated + f)
    else Turn(Build(desk, k, visit.attempt), invalidated)
  }

  ghost function Visits(plan: seq<PlanStage>, desk: Desk, k: nat, visits: seq<Visit>, forced: set<string>,
                        invalidated: set<string>, resume: bool): (p: Part)
    requires k <= |desk.records| == |plan| == |visits| && Fits(desk)
    ensures SameSize(desk, p)
    decreases |plan| - k
  {
    if k == |plan| then Idle(desk)
    else
      var t := Visited(plan, desk, k, visits[k], forced, invalidated, resume);
      Then(t.part, Visits(plan, t.part.desk, k + 1, visits, forced, t.invalidated, resume))
  }

  function Ended(desk: Desk, ending: RunExecution.Ending): (p: Part)
    ensures SameSize(desk, p)
  {
    match ending
    case EndFails(message) =>
      Part([Revise(Step(Kind.Ending, RunState.Failed, desk.records, [], None, Some(message)))], desk,
           Some(End.Failed))
    case EndCancelled(message) => CancelBetween(desk, message)
    case EndCompletes(outputs, delivery, cancelledAfter) =>
      var last := Revise(Step(Kind.Ending, RunState.Complete, desk.records, outputs, Some(delivery), None));
      if cancelledAfter.None? then Part([last], desk, Some(Finished))
      else Then(Part([last], desk, None), CancelBetween(desk, cancelledAfter.value))
  }

  /** The checkpoint files that can be read. */
  function Visible(files: seq<string>, damaged: set<string>): (r: seq<string>)
    ensures forall d :: d in r <==> d in files && d !in damaged
  {
    if files == [] then []
    else (if files[0] in damaged then [] else [files[0]]) + Visible(files[1..], damaged)
  }

  function MarkRecords(desk: Desk, forced: set<string>, damaged: set<string>): (records: seq<Record>)
    requires Fits(desk)
    ensures |records| == |desk.records|
  {
    seq(|desk.records|, j requires 0 <= j < |desk.records| =>
      if desk.records[j].stageId in forced then MarkedRecord(desk.records[j], Visible(desk.store[j], damaged))
      else desk.records[j])
  }

  /** One revision records a whole requested rerun. */
  function Marked(desk: Desk, forced: set<string>, damaged: set<string>): (p: Part)
    requires Fits(desk)
    ensures SameSize(desk, p)
  {
    if forced == {} then Idle(desk)
    else
      var records := MarkRecords(desk, forced, damaged);
      Part([Revise(Step(Marking, RunState.Running, records, [], None, None))], desk.(records := records), None)
  }

  /** The stages whose rerun is still due. */
  function Due(records: seq<Record>): set<string> {
    set j | 0 <= j < |records| && records[j].rerunRequired :: records[j].stageId
  }

  ghost function Forced(plan: seq<PlanStage>, records: seq<Record>, selected: set<string>): set<string> {
    FrontierOf(plan, selected) + Due(records)
  }

  /** `execute_plan`. */
  ghost function SessionPart(plan: seq<PlanStage>, desk: Desk, resume: bool, selected: set<string>, script: Script)
    : (p: Part)
    requires |desk.records| == |plan| == |script.visits| && Fits(desk)
    ensures SameSize(desk, p)
  {
    var forced := Forced(plan, desk.records, selected);
    var marked := Marked(desk, forced, script.damaged);
    var visited := Visits(plan, marked.desk, 0, script.visits, forced, {}, resume);
    Then(marked, Then(visited, Ended(visited.desk, script.ending)))
  }

  /** `resume_v3`: an unfinished run is first recorded as interrupted. */
  ghost function ResumedPart(plan: seq<PlanStage>, state: RunState, desk: Desk, selected: set<string>, script: Script)
    : (p: Part)
    requires |desk.records| == |plan| == |script.visits| && Fits(desk)
    ensures SameSize(desk, p)
  {
    var first := if !state.Running? then Idle(desk) else
      Part([Revise(Step(Interrupting, Interrupted, desk.records, [], None, Some(INTERRUPTED)))], desk, None);
    Then(first, SessionPart(plan, desk, true, selected, script))
  }

  // ---------------------------------------------------------------------------- disk

  datatype Disk = Disk(chain: seq<Manifest>, store: seq<seq<string>>)

  function FreshRecords(plan: seq<PlanStage>): seq<Record> {
    seq(|plan|, i requires 0 <= i < |plan| =>
      Record(false, [], plan[i].id, StageState.Pending, None, None, None))
  }

  /** A new run: revision 1, and no checkpoint. */
  function FreshDisk(c: Context, plan: seq<PlanStage>, clock: nat -> int, runId: string, planDigest: string): (d: Disk)
    ensures d.chain != []
  {
    var p := Payload(runId, planDigest, 1, None, clock(0), clock(0), RunState.Running, FreshRecords(plan),
                     [], None, None);
    Disk([Manifest(c.hash(p), p)], seq(|plan|, _ => []))
  }

  lemma FreshIsValid(c: Context, plan: seq<PlanStage>, clock: nat -> int, runId: string, planDigest: string)
    requires ValidPlan(plan)
    ensures var d := FreshDisk(c, plan, clock, runId, planDigest);
      && ValidManifest(c, Last(d.chain)) && ValidChain(c, d.chain)
      && Last(d.chain).payload.stages == FreshRecords(plan) && StageIds(FreshRecords(plan)) == PlanIds(plan)
  {
    var stages := FreshRecords(plan);
    assert StageIds(stages) == PlanIds(plan);
    assert OutputIds([]) == [];
    assert FreshDisk(c, plan, clock, runId, planDigest).chain[0].payload.stages == stages;
  }

  function Proposed(c: Context, clock: nat -> int, d: Disk, s: Step): Manifest
    requires d.chain != []
  {
    NextManifest(c, Last(d.chain), s.state, s.stages, s.outputs, s.delivery, s.diagnostic, clock(|d.chain|))
  }

  /** Whether the lifecycle rules take an effect. */
  predicate Takes(c: Context, clock: nat -> int, d: Disk, e: Effect)
    requires d.chain != []
  {
    match e
    case Revise(s) =>
      && |d.chain| + 1 < U64_LIMIT
      && ValidManifest(c, Proposed(c, clock, d, s))
      && Follows(Last(d.chain), Proposed(c, clock, d, s))
    case Publish(k, _) => k < |d.store|
  }

  function Apply(c: Context, clock: nat -> int, d: Disk, e: Effect): (r: Disk)
    requires d.chain != [] && Takes(c, clock, d, e)
    ensures r.chain != []
  {
    match e
    case Revise(s) => d.(chain := d.chain + [Proposed(c, clock, d, s)])
    case Publish(k, digest) => d.(store := d.store[k := d.store[k] + [digest]])
  }

  /** What effects leave on disk: all of them, or those before the first that is refused. */
  datatype Result = Result(disk: Disk, refused: Option<Effect>)

  function Perform(c: Context, clock: nat -> int, d: Disk, effects: seq<Effect>): (r: Result)
    requires d.chain != []
    ensures r.disk.chain != []
    decreases |effects|
  {
    if effects == [] then Result(d, None)
    else if !Takes(c, clock, d, effects[0]) then Result(d, Some(effects[0]))
    else Perform(c, clock, Apply(c, clock, d, effects[0]), effects[1..])
  }

  lemma {:induction false} PerformJoin(c: Context, clock: nat -> int, d: Disk, first: seq<Effect>, second: seq<Effect>)
    requires d.chain != []
    ensures Perform(c, clock, d, first + second) ==
      var r := Perform(c, clock, d, first);
      if r.refused.Some? then r else Perform(c, clock, r.disk, second)
    decreases |first|
  {
    hide Takes, Apply;
    if first == [] {
      assert first + second == second;
    } else {
      assert (first + second)[0] == first[0] && (first + second)[1..] == first[1..] + second;
      if Takes(c, clock, d, first[0]) {
        PerformJoin(c, clock, Apply(c, clock, d, first[0]), first[1..], second);
      }
    }
  }

  lemma PerformOne(c: Context, clock: nat -> int, d: Disk, e: Effect)
    requires d.chain != []
    ensures Perform(c, clock, d, [e]) ==
      if Takes(c, clock, d, e) then Result(Apply(c, clock, d, e), None) else Result(d, Some(e))
  {
    hide Takes, Apply;
    assert [e][1..] == [];
  }

  /** How a session ends: as it was going to, or refused at a revision. */
  datatype Outcome = Ends(end: End) | Refused(kind: Kind) | OutOfRevisions

  function OutcomeOf(p: Part, r: Result): Option<Outcome> {
    if r.refused.None? then (if p.end.Some? then Some(Ends(p.end.value)) else None)
    else if r.refused.value.Publish? || |r.disk.chain| + 1 >= U64_LIMIT then Some(OutOfRevisions)
    else Some(Refused(r.refused.value.step.kind))
  }
}
