/** Which of a session's revisions the lifecycle rules of src/state_v3.rs refuse, judged on the
    records alone. */
module RunJudgement {
  import opened Distinctness
  import opened RunExecution
  import opened RunManifests
  import opened RunSafety
  import opened RunTrace
  import opened Widths
  import opened Wrappers

  predicate AllValid(c: Context, records: seq<Record>) {
    forall i :: 0 <= i < |records| ==> ValidRecord(c, records[i])
  }

  /** The rules on one revision, apart from what its author guarantees. */
  predicate Legal(c: Context, state: RunState, before: seq<Record>, s: Step) {
    && |s.stages| == |before| && AllValid(c, s.stages)
    && StagesStep(before, s.stages) && RunAllowed(state, s.state)
  }

  /** The first revision that is refused. */
  function Judge(c: Context, state: RunState, records: seq<Record>, effects: seq<Effect>): Option<Kind>
    decreases |effects|
  {
    if effects == [] then None
    else
      match effects[0]
      case Publish(_, _) => Judge(c, state, records, effects[1..])
      case Revise(s) =>
        if Legal(c, state, records, s) then Judge(c, s.state, s.stages, effects[1..]) else Some(s.kind)
  }

  function StateAfter(state: RunState, effects: seq<Effect>): RunState
    decreases |effects|
  {
    if effects == [] then state
    else StateAfter(if effects[0].Revise? then effects[0].step.state else state, effects[1..])
  }

  function RecordsAfter(records: seq<Record>, effects: seq<Effect>): seq<Record>
    decreases |effects|
  {
    if effects == [] then records
    else RecordsAfter(if effects[0].Revise? then effects[0].step.stages else records, effects[1..])
  }

  lemma {:induction false} JudgeJoin(c: Context, state: RunState, records: seq<Record>, first: seq<Effect>,
                                     second: seq<Effect>)
    ensures Judge(c, state, records, first + second) ==
      if Judge(c, state, records, first).Some? then Judge(c, state, records, first)
      else Judge(c, StateAfter(state, first), RecordsAfter(records, first), second)
    ensures StateAfter(state, first + second) == StateAfter(StateAfter(state, first), second)
    ensures RecordsAfter(records, first + second) == RecordsAfter(RecordsAfter(records, first), second)
    decreases |first|
  {
    hide Legal;
    if first == [] {
      assert first + second == second;
    } else {
      assert (first + second)[0] == first[0] && (first + second)[1..] == first[1..] + second;
      if first[0].Revise? {
        JudgeJoin(c, first[0].step.state, first[0].step.stages, first[1..], second);
      } else {
        JudgeJoin(c, state, records, first[1..], second);
      }
    }
  }

  lemma {:induction false} JudgedValid(c: Context, state: RunState, records: seq<Record>, effects: seq<Effect>)
    requires AllValid(c, records) && Judge(c, state, records, effects).None?
    ensures AllValid(c, RecordsAfter(records, effects))
    decreases |effects|
  {
    hide ValidRecord, StagesStep;
    if effects != [] {
      if effects[0].Revise? {
        JudgedValid(c, effects[0].step.state, effects[0].step.stages, effects[1..]);
      } else {
        JudgedValid(c, state, records, effects[1..]);
      }
    }
  }

  /** A part that keeps its own books. */
  predicate Coherent(desk: Desk, p: Part) {
    p.desk.records == RecordsAfter(desk.records, p.effects)
  }

  lemma CoherentThen(desk: Desk, p: Part, q: Part)
    requires Coherent(desk, p) && (p.end.None? ==> Coherent(p.desk, q))
    ensures Coherent(desk, Then(p, q))
  {
    hide RecordsAfter;
    RecordsJoin(desk.records, p.effects, q.effects);
  }

  lemma {:induction false} RecordsJoin(records: seq<Record>, first: seq<Effect>, second: seq<Effect>)
    ensures RecordsAfter(records, first + second) == RecordsAfter(RecordsAfter(records, first), second)
    decreases |first|
  {
    if first == [] {
      assert first + second == second;
    } else {
      assert (first + second)[0] == first[0] && (first + second)[1..] == first[1..] + second;
      RecordsJoin(if first[0].Revise? then first[0].step.stages else records, first[1..], second);
    }
  }

  lemma JudgeThen(c: Context, state: RunState, desk: Desk, p: Part, q: Part)
    requires Judge(c, state, desk.records, p.effects).None? ==> Coherent(desk, p)
    ensures p.end.None? ==>
      var first := Judge(c, state, desk.records, p.effects);
      Judge(c, state, desk.records, Then(p, q).effects)
      == (if first.Some? then first else Judge(c, StateAfter(state, p.effects), p.desk.records, q.effects))
    ensures p.end.None? ==>
      StateAfter(state, Then(p, q).effects) == StateAfter(StateAfter(state, p.effects), q.effects)
  {
    hide Judge, StateAfter, RecordsAfter;
    JudgeJoin(c, state, desk.records, p.effects, q.effects);
  }

  lemma JudgeOne(c: Context, state: RunState, desk: Desk, s: Step, after: Desk, end: Option<End>)
    ensures Judge(c, state, desk.records, [Revise(s)])
      == if Legal(c, state, desk.records, s) then None else Some(s.kind)
    ensures StateAfter(state, [Revise(s)]) == s.state
    ensures after.records == s.stages ==> Coherent(desk, Part([Revise(s)], after, end))
  {
    hide Legal;
    var none: seq<Effect> := [];
    assert [Revise(s)][1..] == none;
    assert Judge(c, s.state, s.stages, none) == None && StateAfter(s.state, none) == s.state;
    assert RecordsAfter(s.stages, none) == s.stages;
  }

  lemma JudgeIdle(c: Context, state: RunState, desk: Desk)
    ensures Judge(c, state, desk.records, Idle(desk).effects) == None
    ensures StateAfter(state, Idle(desk).effects) == state && Coherent(desk, Idle(desk))
  {
  }

  /** A revision that changes one record is judged by that change. */
  lemma JudgeChange(c: Context, state: RunState, desk: Desk, k: nat, r: Record, kind: Kind, next: RunState,
                    diagnostic: Option<string>, end: Option<End>)
    requires k < |desk.records| && AllValid(c, desk.records) && RunAllowed(state, next)
    ensures var records := desk.records[k := r];
      var effects := [Revise(Step(kind, next, records, [], None, diagnostic))];
      && Judge(c, state, desk.records, effects) == (if Accepts(c, desk.records[k], r) then None else Some(kind))
      && StateAfter(state, effects) == next
      && Coherent(desk, Part(effects, desk.(records := records), end))
  {
    hide ValidRecord, StageStep, StagesStep, RunAllowed, Judge, StateAfter, RecordsAfter, Coherent;
    var records := desk.records[k := r];
    OneChange(c, desk.records, k, r);
    JudgeOne(c, state, desk, Step(kind, next, records, [], None, diagnostic), desk.(records := records), end);
  }

  /** A revision that changes nothing is judged by the run's state. */
  lemma JudgeNote(c: Context, state: RunState, desk: Desk, s: Step, end: Option<End>)
    requires AllValid(c, desk.records) && s.stages == desk.records && RunAllowed(state, s.state)
    ensures Judge(c, state, desk.records, [Revise(s)]) == None && StateAfter(state, [Revise(s)]) == s.state
    ensures Coherent(desk, Part([Revise(s)], desk, end))
  {
    hide ValidRecord, Judge, StateAfter, RecordsAfter, Coherent;
    JudgeOne(c, state, desk, s, desk, end);
  }

  lemma JudgePublish(c: Context, state: RunState, desk: Desk, k: nat, digest: string, after: Desk)
    requires after.records == desk.records
    ensures Judge(c, state, desk.records, [Publish(k, digest)]) == None
    ensures StateAfter(state, [Publish(k, digest)]) == state
    ensures Coherent(desk, Part([Publish(k, digest)], after, None))
  {
    var none: seq<Effect> := [];
    assert [Publish(k, digest)][1..] == none;
    assert Judge(c, state, desk.records, none) == None && StateAfter(state, none) == state;
    assert RecordsAfter(desk.records, none) == desk.records;
  }

  // --------------------------------------------------------------- judged by the disk

  lemma TakesIsLegal(c: Context, plan: seq<PlanStage>, clock: nat -> int, d: Disk, s: Step)
    requires Sound(c, plan, d) && ProperEffect(c, plan, Desk(Last(d.chain).payload.stages, d.store), Revise(s))
    ensures Takes(c, clock, d, Revise(s)) <==>
      |d.chain| + 1 < U64_LIMIT && Legal(c, Last(d.chain).payload.state, Last(d.chain).payload.stages, s)
  {
    hide ValidRecord, StagesStep, ValidManifest, Follows, ValidChain, CarriesValid, StartsReady, StoreFits, DueClosed;
    hide DependenciesReady, RunAllowed;
    var next := Proposed(c, clock, d, s);
    NextAccepted(c, d.chain, s.state, s.stages, s.outputs, s.delivery, s.diagnostic, clock(|d.chain|));
    ChainOneMore(c, d.chain, next);
  }

  /** The disk refuses the first illegal revision, or runs out of revision numbers. */
  lemma {:induction false} PerformIsJudged(c: Context, plan: seq<PlanStage>, clock: nat -> int, d: Disk,
                                           effects: seq<Effect>)
    requires Sound(c, plan, d) && |Last(d.chain).payload.stages| == |plan|
    requires Proper(c, plan, Desk(Last(d.chain).payload.stages, d.store), effects)
    ensures var r := Perform(c, clock, d, effects);
      var judged := Judge(c, Last(d.chain).payload.state, Last(d.chain).payload.stages, effects);
      && (r.refused.Some? ==>
            && r.refused.value.Revise?
            && (|r.disk.chain| + 1 >= U64_LIMIT || judged == Some(r.refused.value.step.kind)))
      && (|d.chain| + |effects| < U64_LIMIT ==> |r.disk.chain| + 1 < U64_LIMIT || r.refused.None?)
      && (r.refused.None? ==> judged == None)
    decreases |effects|
  {
    SoundMeans(c, plan, d);
    hide ProperEffect, Legal, ValidRecord;
    if effects != [] {
      var e := effects[0];
      PublishTaken(c, plan, clock, d, e);
      if e.Revise? {
        TakesIsLegal(c, plan, clock, d, e.step);
      }
      if Takes(c, clock, d, e) {
        EffectIsSound(c, plan, clock, d, e);
        hide Sound, Takes;
        var after := Apply(c, clock, d, e);
        SoundMeans(c, plan, after);
        LastAfter(c, clock, d, e);
        PerformIsJudged(c, plan, clock, after, effects[1..]);
      }
    }
  }

  lemma LastAfter(c: Context, clock: nat -> int, d: Disk, e: Effect)
    requires d.chain != [] && Takes(c, clock, d, e)
    ensures var after := Apply(c, clock, d, e);
      && |after.chain| == |d.chain| + (if e.Revise? then 1 else 0)
      && Last(after.chain).payload.state == (if e.Revise? then e.step.state else Last(d.chain).payload.state)
      && Last(after.chain).payload.stages == (if e.Revise? then e.step.stages else Last(d.chain).payload.stages)
  {
    hide ValidManifest, Follows;
  }

  lemma PublishTaken(c: Context, plan: seq<PlanStage>, clock: nat -> int, d: Disk, e: Effect)
    requires d.chain != [] && |Last(d.chain).payload.stages| == |plan|
    requires ProperEffect(c, plan, Desk(Last(d.chain).payload.stages, d.store), e)
    ensures e.Publish? ==> Takes(c, clock, d, e)
  {
    hide OrderlyDesk, CarriesValid, StartsReady;
  }

  /** How a session ends is judged from its start: refused where its first illegal revision
      stands, and otherwise as its trace says, short of running out of revision numbers. */
  lemma OutcomeIsJudged(c: Context, plan: seq<PlanStage>, clock: nat -> int, d: Disk, p: Part)
    requires Sound(c, plan, d) && |Last(d.chain).payload.stages| == |plan|
    requires Proper(c, plan, Desk(Last(d.chain).payload.stages, d.store), p.effects)
    requires |d.chain| + |p.effects| < U64_LIMIT
    ensures OutcomeOf(p, Perform(c, clock, d, p.effects)) ==
      match Judge(c, Last(d.chain).payload.state, Last(d.chain).payload.stages, p.effects)
      case Some(kind) => Some(Refused(kind))
      case None => if p.end.Some? then Some(Ends(p.end.value)) else None
  {
    hide Sound, Proper, Judge, Perform;
    PerformIsJudged(c, plan, clock, d, p.effects);
  }

  // --------------------------------------------------------------------- stages

  /** The moment in which a cancellation finds the rerun flag cleared. */
  predicate Late(attempt: Attempt, files: seq<string>) {
    attempt.Publishes? && attempt.digest !in files && attempt.next.CancelledLate?
  }

  /** An attempt that completes. */
  predicate Smooth(attempt: Attempt, files: seq<string>) {
    attempt.Publishes? && attempt.digest !in files && attempt.next.Completes? && attempt.next.cancelledAfter.None?
  }

  lemma JudgeStop(c: Context, desk: Desk, k: nat, stop: Stop)
    requires k < |desk.records| && AllValid(c, desk.records) && c.printable(stop.message)
    requires var s := desk.records[k].state; s.Pending? || s.Invalidated? || s.Running? || s.Validating?
    ensures var p := StopAt(desk, k, stop);
      Judge(c, RunState.Running, desk.records, p.effects) == None && Coherent(desk, p) && p.end.Some?
  {
    hide ValidRecord, StageStep, Judge, StateAfter, RecordsAfter, Coherent, Accepts;
    StopAccepted(c, desk.records[k], stop.cancelled, stop.message);
    var r := StoppedRecord(desk.records[k], stop.cancelled, stop.message);
    JudgeChange(c, RunState.Running, desk, k, r, Stopping(k),
                if stop.cancelled then RunState.Cancelled else RunState.Failed, Some(stop.message),
                Some(if stop.cancelled then End.Cancelled else End.Failed));
  }

  lemma JudgeCancel(c: Context, state: RunState, desk: Desk, message: string)
    requires AllValid(c, desk.records)
    ensures var p := CancelBetween(desk, message);
      Judge(c, state, desk.records, p.effects) == None && Coherent(desk, p)
  {
    hide ValidRecord, Judge, StateAfter, RecordsAfter, Coherent;
    JudgeNote(c, state, desk, Step(Cancelling, RunState.Cancelled, desk.records, [], None, Some(message)),
              Some(End.Cancelled));
  }

  /** What comes after publication: only the late cancellation of a due rerun is refused. */
  lemma JudgeAfterPublished(c: Context, desk: Desk, k: nat, digest: string, next: AfterPublication)
    requires k < |desk.records| && AllValid(c, desk.records) && desk.records[k].state.Validating?
    requires digest !in desk.records[k].excluded && PlausibleNext(c, next)
    ensures var p := AfterPublished(desk, k, digest, next);
      && Judge(c, RunState.Running, desk.records, p.effects)
         == (if next.CancelledLate? && desk.records[k].rerunRequired then Some(LateCancelling(k)) else None)
      && Coherent(desk, p)
      && (p.end.None? <==> next.Completes? && next.cancelledAfter.None?)
      && (p.end.None? ==> StateAfter(RunState.Running, p.effects) == RunState.Running)
  {
    hide ValidRecord, StageStep, Judge, StateAfter, RecordsAfter, Coherent, Accepts;
    var r := desk.records[k];
    assert ValidRecord(c, r);
    match next {
      case StopsPublished(stop) =>
        JudgeStop(c, desk, k, stop);
      case CancelledLate(message) =>
        CancelledCompletionAccepted(c, r, message);
        JudgeChange(c, RunState.Running, desk, k, StoppedRecord(r.(rerunRequired := false), true, message),
                    LateCancelling(k), RunState.Cancelled, Some(message), Some(End.Cancelled));
      case Completes(cacheMessage, cancelledAfter) =>
        var reference := Reference(r.stageId, digest);
        CompletionAccepted(c, r, reference, cacheMessage);
        JudgeChange(c, RunState.Running, desk, k, CompletedRecord(r, reference, cacheMessage), Accepting(k),
                    RunState.Running, None, None);
        var done := Accepted(desk, k, digest, cacheMessage);
        CoherentValid(c, RunState.Running, desk, done);
        if cancelledAfter.Some? {
          JudgeCancel(c, RunState.Running, done.desk, cancelledAfter.value);
          JudgeThen(c, RunState.Running, desk, done, CancelBetween(done.desk, cancelledAfter.value));
          CoherentThen(desk, done, CancelBetween(done.desk, cancelledAfter.value));
        } else {
          JudgeIdle(c, RunState.Running, done.desk);
          JudgeThen(c, RunState.Running, desk, done, Idle(done.desk));
          CoherentThen(desk, done, Idle(done.desk));
        }
    }
  }

  lemma CoherentValid(c: Context, state: RunState, desk: Desk, p: Part)
    requires AllValid(c, desk.records) && Coherent(desk, p) && Judge(c, state, desk.records, p.effects).None?
    ensures AllValid(c, p.desk.records)
  {
    hide ValidRecord, Judge, RecordsAfter;
    JudgedValid(c, state, desk.records, p.effects);
  }

  /** A completed build is refused nowhere, and an excluded checkpoint is never offered:
      its file exists, so it cannot be published again. */
  lemma JudgePublished(c: Context, desk: Desk, k: nat, digest: string, collision: Stop, next: AfterPublication)
    requires k < |desk.records| == |desk.store| && AllValid(c, desk.records) && desk.records[k].state.Validating?
    requires StageFits(desk.records[k], desk.store[k]) && c.printable(collision.message) && PlausibleNext(c, next)
    ensures var p := Published(desk, k, digest, collision, next);
      && Judge(c, RunState.Running, desk.records, p.effects)
         == (if Late(Publishes(digest, collision, next), desk.store[k]) && desk.records[k].rerunRequired
             then Some(LateCancelling(k)) else None)
      && Coherent(desk, p)
      && (p.end.None? <==> Smooth(Publishes(digest, collision, next), desk.store[k]))
      && (p.end.None? ==> StateAfter(RunState.Running, p.effects) == RunState.Running)
  {
    hide ValidRecord, Judge, StateAfter, RecordsAfter, Coherent, PlausibleNext, AfterPublished;
    if digest in desk.store[k] {
      JudgeStop(c, desk, k, collision);
    } else {
      var kept := desk.(store := desk.store[k := desk.store[k] + [digest]]);
      JudgePublish(c, RunState.Running, desk, k, digest, kept);
      JudgeAfterPublished(c, kept, k, digest, next);
      var p := Part([Publish(k, digest)], kept, None);
      JudgeThen(c, RunState.Running, desk, p, AfterPublished(kept, k, digest, next));
      CoherentThen(desk, p, AfterPublished(kept, k, digest, next));
    }
  }

  lemma JudgeRest(c: Context, desk: Desk, k: nat, attempt: Attempt)
    requires k < |desk.records| == |desk.store| && AllValid(c, desk.records) && desk.records[k].state.Running?
    requires StageFits(desk.records[k], desk.store[k]) && PlausibleAttempt(c, attempt) && !attempt.StopsAtInputs?
    ensures var p := BuildRest(desk, k, attempt);
      && Judge(c, RunState.Running, desk.records, p.effects)
         == (if Late(attempt, desk.store[k]) && desk.records[k].rerunRequired then Some(LateCancelling(k)) else None)
      && Coherent(desk, p)
      && (p.end.None? <==> Smooth(attempt, desk.store[k]))
      && (p.end.None? ==> StateAfter(RunState.Running, p.effects) == RunState.Running)
  {
    hide ValidRecord, StageStep, Judge, StateAfter, RecordsAfter, Coherent, Accepts, PlausibleNext, Published;
    if attempt.StopsRunning? {
      JudgeStop(c, desk, k, attempt.stop);
    } else {
      var r := desk.records[k];
      assert ValidRecord(c, r);
      ValidatingAccepted(c, r);
      JudgeChange(c, RunState.Running, desk, k, r.(state := Validating), Checking(k), RunState.Running, None, None);
      var checked := Checked(desk, k);
      CoherentValid(c, RunState.Running, desk, checked);
      match attempt {
        case StopsValidating(stop) =>
          JudgeStop(c, checked.desk, k, stop);
        case Publishes(digest, collision, next) =>
          JudgePublished(c, checked.desk, k, digest, collision, next);
      }
      JudgeThen(c, RunState.Running, desk, checked, BuildChecked(checked.desk, k, attempt));
      CoherentThen(desk, checked, BuildChecked(checked.desk, k, attempt));
    }
  }

  /** A build is refused exactly in the late cancellation of a due rerun. */
  lemma JudgeBuild(c: Context, desk: Desk, k: nat, attempt: Attempt)
    requires k < |desk.records| == |desk.store| && AllValid(c, desk.records)
    requires desk.records[k].state.Pending? || desk.records[k].state.Invalidated?
    requires StageFits(desk.records[k], desk.store[k]) && PlausibleAttempt(c, attempt)
    ensures var p := Build(desk, k, attempt);
      && Judge(c, RunState.Running, desk.records, p.effects)
         == (if Late(attempt, desk.store[k]) && desk.records[k].rerunRequired then Some(LateCancelling(k)) else None)
      && Coherent(desk, p)
      && (p.end.None? <==> Smooth(attempt, desk.store[k]))
      && (p.end.None? ==> StateAfter(RunState.Running, p.effects) == RunState.Running)
  {
    hide ValidRecord, StageStep, Judge, StateAfter, RecordsAfter, Coherent, Accepts, PlausibleNext, BuildRest;
    if attempt.StopsAtInputs? {
      JudgeStop(c, desk, k, attempt.stop);
    } else {
      var r := desk.records[k];
      assert ValidRecord(c, r);
      StartAccepted(c, r);
      JudgeChange(c, RunState.Running, desk, k, StartedRecord(r), Starting(k), RunState.Running, None, None);
      var started := Started(desk, k);
      CoherentValid(c, RunState.Running, desk, started);
      JudgeRest(c, started.desk, k, attempt);
      JudgeThen(c, RunState.Running, desk, started, BuildRest(started.desk, k, attempt));
      CoherentThen(desk, started, BuildRest(started.desk, k, attempt));
    }
  }

  /** A stage that waits, invalidated for another reason and with no rerun due. */
  predicate Stuck(r: Record, why: Decision) {
    r.state.Invalidated? && !r.rerunRequired && InvalidatedRecord(r, why) != r
  }

  function FirstStuck(f: set<string>, k: nat, decision: Decision, records: seq<Record>, j: nat): Option<nat>
    requires j <= |records|
    decreases |records| - j
  {
    if j == |records| then None
    else if records[j].stageId in f && Stuck(records[j], Why(k, j, decision)) then Some(j)
    else FirstStuck(f, k, decision, records, j + 1)
  }

  lemma {:induction false} FirstStuckIsFirst(f: set<string>, k: nat, decision: Decision, records: seq<Record>, j: nat)
    requires j <= |records|
    ensures var r := FirstStuck(f, k, decision, records, j);
      && (r.Some? ==>
            && j <= r.value < |records| && records[r.value].stageId in f
            && Stuck(records[r.value], Why(k, r.value, decision))
            && forall i :: j <= i < r.value && records[i].stageId in f ==> !Stuck(records[i], Why(k, i, decision)))
      && (r.None? ==>
            forall i :: j <= i < |records| && records[i].stageId in f ==> !Stuck(records[i], Why(k, i, decision)))
    decreases |records| - j
  {
    hide Stuck;
    if j < |records| {
      FirstStuckIsFirst(f, k, decision, records, j + 1);
    }
  }

  lemma {:induction false} StuckLooksAhead(f: set<string>, k: nat, decision: Decision, left: seq<Record>,
                                           right: seq<Record>, j: nat)
    requires |left| == |right| && j <= |left| && forall i :: j <= i < |left| ==> left[i] == right[i]
    ensures FirstStuck(f, k, decision, left, j) == FirstStuck(f, k, decision, right, j)
    decreases |left| - j
  {
    hide Stuck, Why;
    if j < |left| {
      StuckLooksAhead(f, k, decision, left, right, j + 1);
    }
  }

  function Cleared(f: set<string>, k: nat, decision: Decision, r: Record, i: nat, j: nat): Record {
    if j <= i && r.stageId in f then InvalidatedRecord(r, Why(k, i, decision)) else r
  }

  /** What invalidation leaves: exactly the frontier is invalidated. */
  lemma {:induction false} InvalidationResult(f: set<string>, k: nat, decision: Decision, desk: Desk, j: nat)
    requires j <= |desk.records|
    ensures var p := Invalidation(f, k, decision, desk, j);
      && p.end.None? && p.desk.store == desk.store
      && forall i :: 0 <= i < |desk.records| ==>
           p.desk.records[i] == Cleared(f, k, decision, desk.records[i], i, j)
    decreases |desk.records| - j
  {
    hide Why, InvalidatedRecord;
    if j < |desk.records| {
      if desk.records[j].stageId in f {
        var r := InvalidatedRecord(desk.records[j], Why(k, j, decision));
        var one := Change(Invalidating(j), desk, j, r);
        InvalidationResult(f, k, decision, one.desk, j + 1);
      } else {
        InvalidationResult(f, k, decision, desk, j + 1);
      }
    }
  }

  /** Invalidation is refused exactly at the first stuck stage. */
  lemma {:induction false} JudgeInvalidation(c: Context, state: RunState, f: set<string>, k: nat, decision: Decision,
                                             desk: Desk, j: nat)
    requires Speaks(c) && j <= |desk.records| && AllValid(c, desk.records)
    requires ValidDecision(c, decision) && !decision.reusable
    ensures var p := Invalidation(f, k, decision, desk, j);
      && Judge(c, state, desk.records, p.effects) ==
         (match FirstStuck(f, k, decision, desk.records, j) case Some(i) => Some(Invalidating(i)) case None => None)
      && Coherent(desk, p)
      && StateAfter(state, p.effects) ==
         if exists i :: j <= i < |desk.records| && desk.records[i].stageId in f then RunState.Running else state
    decreases |desk.records| - j
  {
    hide ValidRecord, StageStep, Judge, StateAfter, RecordsAfter, Coherent, Accepts, ValidDecision, Stuck;
    hide InvalidatedRecord, Speaks;
    if j == |desk.records| {
      JudgeIdle(c, state, desk);
    } else if desk.records[j].stageId in f {
      var why := Why(k, j, decision);
      assert ValidRecord(c, desk.records[j]);
      DependencyDecisionIsValid(c);
      InvalidationAccepted(c, desk.records[j], why);
      StuckMeans(desk.records[j], why);
      var r := InvalidatedRecord(desk.records[j], why);
      JudgeChange(c, state, desk, j, r, Invalidating(j), RunState.Running, None, None);
      var one := Change(Invalidating(j), desk, j, r);
      if Accepts(c, desk.records[j], r) {
        CoherentValid(c, state, desk, one);
        JudgeInvalidation(c, RunState.Running, f, k, decision, one.desk, j + 1);
        SameIdsLater(desk.records, j, r);
        StuckLooksAhead(f, k, decision, desk.records, one.desk.records, j + 1);
      } else {
        InvalidationCoherent(f, k, decision, one.desk, j + 1);
        StatesOfInvalidation(f, k, decision, one.desk, j + 1);
      }
      JudgeThen(c, state, desk, one, Invalidation(f, k, decision, one.desk, j + 1));
      CoherentThen(desk, one, Invalidation(f, k, decision, one.desk, j + 1));
    } else {
      JudgeInvalidation(c, state, f, k, decision, desk, j + 1);
      assert (exists i :: j <= i < |desk.records| && desk.records[i].stageId in f)
        <==> (exists i :: j + 1 <= i < |desk.records| && desk.records[i].stageId in f);
    }
  }

  lemma SameIdsLater(records: seq<Record>, j: nat, r: Record)
    requires j < |records|
    ensures forall i :: j + 1 <= i < |records| ==> records[j := r][i] == records[i]
  {
  }

  lemma StuckMeans(r: Record, why: Decision)
    ensures Stuck(r, why) <==> !(r.state.Invalidated? && !r.rerunRequired ==> InvalidatedRecord(r, why) == r)
  {
  }

  lemma DependencyDecisionIsValid(c: Context)
    requires Speaks(c)
    ensures ValidDecision(c, DEPENDENCY_DECISION) && !DEPENDENCY_DECISION.reusable
  {
  }

  lemma {:induction false} InvalidationCoherent(f: set<string>, k: nat, decision: Decision, desk: Desk, j: nat)
    requires j <= |desk.records|
    ensures Coherent(desk, Invalidation(f, k, decision, desk, j))
    decreases |desk.records| - j
  {
    hide RecordsAfter, InvalidatedRecord, Why;
    if j == |desk.records| {
      assert RecordsAfter(desk.records, []) == desk.records by { NothingAfter(desk.records); }
    } else if desk.records[j].stageId in f {
      var r := InvalidatedRecord(desk.records[j], Why(k, j, decision));
      var one := Change(Invalidating(j), desk, j, r);
      OneAfter(desk, one.effects[0].step, one.desk);
      InvalidationCoherent(f, k, decision, one.desk, j + 1);
      CoherentThen(desk, one, Invalidation(f, k, decision, one.desk, j + 1));
    } else {
      InvalidationCoherent(f, k, decision, desk, j + 1);
    }
  }

  lemma NothingAfter(records: seq<Record>)
    ensures RecordsAfter(records, []) == records
  {
  }

  lemma OneAfter(desk: Desk, s: Step, after: Desk)
    requires after.records == s.stages
    ensures RecordsAfter(desk.records, [Revise(s)]) == after.records
  {
    var none: seq<Effect> := [];
    assert [Revise(s)][1..] == none && RecordsAfter(s.stages, none) == s.stages;
  }

  /** Every revision of an invalidation says that the run is running. */
  lemma {:induction false} StatesOfInvalidation(f: set<string>, k: nat, decision: Decision, desk: Desk, j: nat)
    requires j <= |desk.records|
    ensures StateAfter(RunState.Running, Invalidation(f, k, decision, desk, j).effects) == RunState.Running
    decreases |desk.records| - j
  {
    hide InvalidatedRecord, Why;
    if j < |desk.records| {
      if desk.records[j].stageId in f {
        var r := InvalidatedRecord(desk.records[j], Why(k, j, decision));
        var one := Change(Invalidating(j), desk, j, r);
        StatesOfInvalidation(f, k, decision, one.desk, j + 1);
        var rest := Invalidation(f, k, decision, one.desk, j + 1).effects;
        assert (one.effects + rest)[1..] == rest;
      } else {
        StatesOfInvalidation(f, k, decision, desk, j + 1);
      }
    }
  }
}
