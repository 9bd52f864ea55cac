/** Sessions of a run, src/run_v3.rs: the executor itself, one revision and one checkpoint
    after another, shown to do exactly what its trace says. */
module RunSession {
  import opened PipelineGraph
  import opened RunExecution
  import opened RunFates
  import opened RunJudgement
  import opened RunManifests
  import opened RunOutcomes
  import opened RunRebuilds
  import opened RunTrace
  import opened Widths
  import opened Wrappers

  /** A part of a session has been carried out: the disk holds all its effects, or those
      before the first refused one, and the outcome says which. */
  predicate Did(c: Context, clock: nat -> int, before: Disk, p: Part, after: Disk, desk: Desk, o: Option<Outcome>)
    requires before.chain != []
  {
    var r := Perform(c, clock, before, p.effects);
    && after == r.disk && o == OutcomeOf(p, r)
    && (r.refused.None? ==> desk == p.desk)
  }

  lemma DidThen(c: Context, clock: nat -> int, d0: Disk, p: Part, d1: Disk, desk: Desk, q: Part, d2: Disk,
                last: Desk, o: Option<Outcome>)
    requires d0.chain != [] && Did(c, clock, d0, p, d1, desk, None)
    ensures d1.chain != []
    ensures Did(c, clock, d1, q, d2, last, o) ==> Did(c, clock, d0, Then(p, q), d2, last, o)
  {
    hide Perform;
    PerformJoin(c, clock, d0, p.effects, q.effects);
  }

  lemma DidStop(c: Context, clock: nat -> int, d0: Disk, p: Part, d1: Disk, desk: Desk, q: Part, o: Option<Outcome>)
    requires d0.chain != [] && Did(c, clock, d0, p, d1, desk, o) && o.Some?
    ensures Did(c, clock, d0, Then(p, q), d1, desk, o)
  {
    hide Perform;
    PerformJoin(c, clock, d0, p.effects, q.effects);
  }

  lemma DidNothing(c: Context, clock: nat -> int, d: Disk, desk: Desk)
    requires d.chain != []
    ensures Did(c, clock, d, Idle(desk), d, desk, None)
  {
  }

  lemma ThenIdle(p: Part)
    requires p.end.None?
    ensures Then(p, Idle(p.desk)) == p
  {
  }

  class Session {
    const c: Context
    const plan: seq<PlanStage>
    const clock: nat -> int
    var chain: seq<Manifest>
    var records: seq<Record>
    var store: seq<seq<string>>

    predicate Valid()
      reads this
    {
      && chain != [] && ValidManifest(c, Last(chain))
      && |records| == |store| == |plan|
    }

    function OnDisk(): Disk
      reads this
    {
      Disk(chain, store)
    }

    function AtDesk(): Desk
      reads this
    {
      Desk(records, store)
    }

    /** A fresh run: revision 1, with every stage pending and no checkpoint. */
    constructor (c: Context, plan: seq<PlanStage>, clock: nat -> int, runId: string, planDigest: string)
      requires ValidPlan(plan)
      ensures Valid() && this.c == c && this.plan == plan && this.clock == clock
      ensures OnDisk() == FreshDisk(c, plan, clock, runId, planDigest) && records == FreshRecords(plan)
    {
      this.c, this.plan, this.clock := c, plan, clock;
      var d := FreshDisk(c, plan, clock, runId, planDigest);
      this.chain, this.records, this.store := d.chain, FreshRecords(plan), d.store;
      new;
      FreshIsValid(c, plan, clock, runId, planDigest);
    }

    /** `append_transition`: the next revision is validated, checked against the last one,
        and published. */
    method Append(s: Step) returns (ok: bool)
      requires Valid()
      modifies this`chain
      ensures Valid()
      ensures ok <==> Takes(c, clock, old(OnDisk()), Revise(s))
      ensures chain == if ok then old(chain) + [Proposed(c, clock, old(OnDisk()), s)] else old(chain)
    {
      hide ValidManifest, Follows;
      var next := Proposed(c, clock, OnDisk(), s);
      if |chain| + 1 >= U64_LIMIT {
        return false;
      }
      if !ValidManifest(c, next) {
        return false;
      }
      ok := CheckSuccessor(c, Last(chain), next);
      if ok {
        chain := chain + [next];
      }
    }

    /** One stage record changes, and a revision says so. */
    method ChangeStage(kind: Kind, k: nat, r: Record) returns (o: Option<Outcome>)
      requires Valid() && k < |plan|
      modifies this
      ensures Valid() && Did(c, clock, old(OnDisk()), Change(kind, old(AtDesk()), k, r), OnDisk(), AtDesk(), o)
    {
      hide ValidManifest, Follows, Takes;
      ghost var p := Change(kind, AtDesk(), k, r);
      records := records[k := r];
      var s := Step(kind, RunState.Running, records, [], None, None);
      PerformOne(c, clock, OnDisk(), Revise(s));
      var ok := Append(s);
      o := if ok then None else Some(RefusedAt(kind));
    }

    function RefusedAt(kind: Kind): Outcome
      reads this
    {
      if |chain| + 1 >= U64_LIMIT then OutOfRevisions else Refused(kind)
    }

    /** `fail_stage`. */
    method FailStage(k: nat, stop: Stop) returns (o: Option<Outcome>)
      requires Valid() && k < |plan|
      modifies this
      ensures Valid() && Did(c, clock, old(OnDisk()), StopAt(old(AtDesk()), k, stop), OnDisk(), AtDesk(), o) && o.Some?
    {
      hide ValidManifest, Follows, Takes;
      records := records[k := StoppedRecord(records[k], stop.cancelled, stop.message)];
      var state := if stop.cancelled then RunState.Cancelled else RunState.Failed;
      var s := Step(Stopping(k), state, records, [], None, Some(stop.message));
      PerformOne(c, clock, OnDisk(), Revise(s));
      var ok := Append(s);
      o := Some(if !ok then RefusedAt(Stopping(k)) else Ends(if stop.cancelled then End.Cancelled else End.Failed));
    }

    /** `persist_run_cancellation`. */
    method CancelRun(message: string) returns (o: Option<Outcome>)
      requires Valid()
      modifies this`chain
      ensures Valid() && o.Some?
      ensures Did(c, clock, old(OnDisk()), CancelBetween(old(AtDesk()), message), OnDisk(), AtDesk(), o)
    {
      hide ValidManifest, Follows, Takes;
      var s := Step(Cancelling, RunState.Cancelled, records, [], None, Some(message));
      PerformOne(c, clock, OnDisk(), Revise(s));
      var ok := Append(s);
      o := Some(if ok then Ends(End.Cancelled) else RefusedAt(Cancelling));
    }

    /** What follows the publication of a stage's checkpoint. */
    method FinishStage(k: nat, digest: string, next: AfterPublication) returns (o: Option<Outcome>)
      requires Valid() && k < |plan|
      modifies this
      ensures Valid()
      ensures Did(c, clock, old(OnDisk()), AfterPublished(old(AtDesk()), k, digest, next), OnDisk(), AtDesk(), o)
    {
      hide ValidManifest, Follows, Takes, Did, Change, StopAt, CancelBetween;
      ghost var d0, desk := OnDisk(), AtDesk();
      match next {
        case StopsPublished(stop) =>
          o := FailStage(k, stop);
        case CancelledLate(message) =>
          o := CancelLate(k, message);
        case Completes(cacheMessage, cancelledAfter) =>
          var r := CompletedRecord(records[k], Reference(records[k].stageId, digest), cacheMessage);
          o := ChangeStage(Accepting(k), k, r);
          ghost var done := Accepted(desk, k, digest, cacheMessage);
          ghost var after := if cancelledAfter.Some? then CancelBetween(done.desk, cancelledAfter.value)
                             else Idle(done.desk);
          if o.Some? {
            DidStop(c, clock, d0, done, OnDisk(), AtDesk(), after, o);
            return;
          }
          DidDesk(c, clock, d0, done, OnDisk(), AtDesk());
          ghost var d1 := OnDisk();
          if cancelledAfter.Some? {
            o := CancelRun(cancelledAfter.value);
          } else {
            DidNothing(c, clock, d1, AtDesk());
          }
          DidThen(c, clock, d0, done, d1, done.desk, after, OnDisk(), AtDesk(), o);
      }
    }

    /** A cancellation noticed between the clearing of the rerun flag and the revision that
        was to record the completion. */
    method CancelLate(k: nat, message: string) returns (o: Option<Outcome>)
      requires Valid() && k < |plan|
      modifies this
      ensures Valid() && Did(c, clock, old(OnDisk()), LateCancelled(old(AtDesk()), k, message), OnDisk(), AtDesk(), o)
    {
      hide ValidManifest, Follows, Takes;
      records := records[k := StoppedRecord(records[k].(rerunRequired := false), true, message)];
      var s := Step(LateCancelling(k), RunState.Cancelled, records, [], None, Some(message));
      PerformOne(c, clock, OnDisk(), Revise(s));
      var ok := Append(s);
      o := Some(if ok then Ends(End.Cancelled) else RefusedAt(LateCancelling(k)));
    }

    /** `publish_stage_checkpoint` and what follows: an existing file is never replaced. */
    method PublishStage(k: nat, digest: string, collision: Stop, next: AfterPublication) returns (o: Option<Outcome>)
      requires Valid() && k < |plan|
      modifies this
      ensures Valid()
      ensures Did(c, clock, old(OnDisk()), Published(old(AtDesk()), k, digest, collision, next),
                  OnDisk(), AtDesk(), o)
    {
      hide ValidManifest, Follows, Did, StopAt, AfterPublished;
      ghost var d0 := OnDisk();
      if digest in store[k] {
        o := FailStage(k, collision);
        return;
      }
      store := store[k := store[k] + [digest]];
      ghost var published := Part([Publish(k, digest)], AtDesk(), None);
      ghost var d1 := OnDisk();
      DidPublish(c, clock, d0, k, digest, AtDesk());
      o := FinishStage(k, digest, next);
      DidThen(c, clock, d0, published, d1, published.desk, AfterPublished(published.desk, k, digest, next),
              OnDisk(), AtDesk(), o);
    }

    /** A stage is started, validated and completed, or stops on the way. */
    method BuildStage(k: nat, attempt: Attempt) returns (o: Option<Outcome>)
      requires Valid() && k < |plan|
      modifies this
      ensures Valid() && Did(c, clock, old(OnDisk()), Build(old(AtDesk()), k, attempt), OnDisk(), AtDesk(), o)
    {
      hide ValidManifest, Follows, Did, StopAt, Published, Change;
      if attempt.StopsAtInputs? {
        o := FailStage(k, attempt.stop);
        return;
      }
      ghost var d0, started := OnDisk(), Started(AtDesk(), k);
      o := ChangeStage(Starting(k), k, StartedRecord(records[k]));
      ghost var rest := BuildRest(started.desk, k, attempt);
      if o.Some? {
        DidStop(c, clock, d0, started, OnDisk(), AtDesk(), rest, o);
        return;
      }
      DidDesk(c, clock, d0, started, OnDisk(), AtDesk());
      ghost var d1 := OnDisk();
      o := BuildStarted(k, attempt);
      DidThen(c, clock, d0, started, d1, started.desk, rest, OnDisk(), AtDesk(), o);
    }

    /** A started stage runs, is validated and completes, or stops on the way. */
    method BuildStarted(k: nat, attempt: Attempt) returns (o: Option<Outcome>)
      requires Valid() && k < |plan| && !attempt.StopsAtInputs?
      modifies this
      ensures Valid() && Did(c, clock, old(OnDisk()), BuildRest(old(AtDesk()), k, attempt), OnDisk(), AtDesk(), o)
    {
      hide ValidManifest, Follows, Did, StopAt, Published, Change;
      if attempt.StopsRunning? {
        o := FailStage(k, attempt.stop);
        return;
      }
      ghost var d0, checked := OnDisk(), Checked(AtDesk(), k);
      o := ChangeStage(Checking(k), k, records[k].(state := Validating));
      ghost var rest := BuildChecked(checked.desk, k, attempt);
      if o.Some? {
        DidStop(c, clock, d0, checked, OnDisk(), AtDesk(), rest, o);
        return;
      }
      DidDesk(c, clock, d0, checked, OnDisk(), AtDesk());
      ghost var d1 := OnDisk();
      match attempt {
        case StopsValidating(stop) =>
          o := FailStage(k, stop);
        case Publishes(digest, collision, next) =>
          o := PublishStage(k, digest, collision, next);
      }
      DidThen(c, clock, d0, checked, d1, checked.desk, rest, OnDisk(), AtDesk(), o);
    }

    /** `invalidate_stage_frontier`: the stage and every stage that reaches it, and no
        other, one revision each, in plan order. */
    method InvalidateFrontier(k: nat, decision: Decision) returns (o: Option<Outcome>, f: set<string>)
      requires Valid() && ValidPlan(plan) && k < |plan|
      modifies this
      ensures Valid() && f == FrontierOf(plan, {plan[k].id})
      ensures Did(c, clock, old(OnDisk()), Invalidation(f, k, decision, old(AtDesk()), 0), OnDisk(), AtDesk(), o)
      ensures o.None? ==>
        && store == old(store) && |chain| == old(|chain|) + HowMany(f, old(records), 0)
        && (forall i :: 0 <= i < |plan| && old(records)[i].stageId !in f ==> records[i] == old(records)[i])
        && (forall i :: 0 <= i < |plan| && old(records)[i].stageId in f ==>
              IsInvalidated(old(records)[i], records[i], if i == k then decision else Decision(false, [
                Reason(DependencyChanged, "a declared dependency was invalidated in this resume")])))
    {
      hide ValidManifest, Follows, ValidPlan, Did, Change, InvalidatedRecord, Why;
      f := Frontier(plan, {plan[k].id});
      FrontierIsDescendants(plan, {plan[k].id}, f);
      o := None;
      ghost var d0, whole := OnDisk(), Invalidation(f, k, decision, AtDesk(), 0);
      ghost var done := Idle(AtDesk());
      DidNothing(c, clock, d0, AtDesk());
      IdleThen(whole);
      for j := 0 to |plan|
        invariant Valid() && o.None?
        invariant done.desk == AtDesk() && Did(c, clock, d0, done, OnDisk(), AtDesk(), None)
        invariant whole == Then(done, Invalidation(f, k, decision, AtDesk(), j))
      {
        if records[j].stageId in f {
          var r := InvalidatedRecord(records[j], Why(k, j, decision));
          ghost var desk, d1 := AtDesk(), OnDisk();
          ghost var one := Change(Invalidating(j), desk, j, r);
          ghost var rest := Invalidation(f, k, decision, one.desk, j + 1);
          InvalidationUnfolds(f, k, decision, desk, j);
          o := ChangeStage(Invalidating(j), j, r);
          DidThen(c, clock, d0, done, d1, desk, one, OnDisk(), AtDesk(), o);
          ThenAssociates(done, one, rest);
          if o.Some? {
            DidStop(c, clock, d0, Then(done, one), OnDisk(), AtDesk(), rest, o);
            return;
          }
          DidDesk(c, clock, d0, Then(done, one), OnDisk(), AtDesk());
          done := Then(done, one);
        } else {
          InvalidationUnfolds(f, k, decision, AtDesk(), j);
        }
      }
      InvalidationEnds(f, k, decision, AtDesk());
      DidEnds(c, clock, d0, done, OnDisk(), AtDesk());
      ThenIdle(done);
      DidInvalidation(c, clock, d0, f, k, decision, old(AtDesk()), OnDisk(), AtDesk());
      forall i | 0 <= i < |plan| && old(records)[i].stageId in f
        ensures IsInvalidated(old(records)[i], records[i], if i == k then decision else Decision(false, [
          Reason(DependencyChanged, "a declared dependency was invalidated in this resume")]))
      {
        ClearedMeans(f, k, decision, old(records)[i], i);
      }
    }

    /** One turn of the loop over stages. */
    method VisitStage(k: nat, visit: Visit, forced: set<string>, invalidated: set<string>, resume: bool)
      returns (o: Option<Outcome>, grown: set<string>)
      requires Valid() && ValidPlan(plan) && k < |plan|
      modifies this
      ensures Valid()
      ensures var t := Visited(plan, old(AtDesk()), k, visit, forced, invalidated, resume);
        && Did(c, clock, old(OnDisk()), t.part, OnDisk(), AtDesk(), o)
        && grown == t.invalidated
    {
      hide ValidManifest, Follows, ValidPlan, Did, Change, Build, Invalidation, CancelBetween, FirstKept;
      grown := invalidated;
      if visit.cancelledBefore {
        o := CancelRun(CANCELLED_BEFORE);
        return;
      }
      if resume && plan[k].id !in forced && plan[k].id !in invalidated {
        var kept := FirstKept(visit.compatible, records[k].excluded, store[k]);
        if kept.Some? {
          o := ChangeStage(Reusing(k), k, ReusedRecord(records[k], Reference(records[k].stageId, kept.value)));
          return;
        }
        ghost var d0, desk := OnDisk(), AtDesk();
        var f;
        o, f := InvalidateFrontier(k, visit.otherwise);
        grown := invalidated + f;
        ghost var cleared := Invalidation(f, k, visit.otherwise, desk, 0);
        if o.Some? {
          DidStop(c, clock, d0, cleared, OnDisk(), AtDesk(), Build(cleared.desk, k, visit.attempt), o);
          return;
        }
        DidDesk(c, clock, d0, cleared, OnDisk(), AtDesk());
        ghost var d1 := OnDisk();
        o := BuildStage(k, visit.attempt);
        DidThen(c, clock, d0, cleared, d1, cleared.desk, Build(cleared.desk, k, visit.attempt),
                OnDisk(), AtDesk(), o);
        return;
      }
      o := BuildStage(k, visit.attempt);
    }

    /** The durable revision that records a whole requested rerun before anything runs. */
    method MarkReruns(forced: set<string>, damaged: set<string>) returns (o: Option<Outcome>)
      requires Valid()
      modifies this
      ensures Valid() && Did(c, clock, old(OnDisk()), Marked(old(AtDesk()), forced, damaged), OnDisk(), AtDesk(), o)
    {
      hide ValidManifest, Follows, Takes, MarkedRecord, Visible;
      if forced == {} {
        DidNothing(c, clock, OnDisk(), AtDesk());
        return None;
      }
      ghost var desk := AtDesk();
      for j := 0 to |plan|
        invariant |records| == |plan| && OnDisk() == old(OnDisk())
        invariant forall i :: 0 <= i < j ==> records[i] == MarkRecords(desk, forced, damaged)[i]
        invariant forall i :: j <= i < |plan| ==> records[i] == desk.records[i]
      {
        if records[j].stageId in forced {
          records := records[j := MarkedRecord(records[j], Visible(store[j], damaged))];
        }
      }
      assert records == MarkRecords(desk, forced, damaged);
      var s := Step(Marking, RunState.Running, records, [], None, None);
      PerformOne(c, clock, OnDisk(), Revise(s));
      var ok := Append(s);
      o := if ok then None else Some(RefusedAt(Marking));
    }

    /** The end of a run whose stages are all complete. */
    method FinishRun(ending: RunExecution.Ending) returns (o: Option<Outcome>)
      requires Valid()
      modifies this
      ensures Valid() && Did(c, clock, old(OnDisk()), Ended(old(AtDesk()), ending), OnDisk(), AtDesk(), o)
    {
      hide ValidManifest, Follows, Takes, CancelBetween;
      match ending {
        case EndFails(message) =>
          var s := Step(Kind.Ending, RunState.Failed, records, [], None, Some(message));
          PerformOne(c, clock, OnDisk(), Revise(s));
          var ok := Append(s);
          o := Some(if ok then Ends(End.Failed) else RefusedAt(Kind.Ending));
        case EndCancelled(message) =>
          o := CancelRun(message);
        case EndCompletes(outputs, delivery, cancelledAfter) =>
          var s := Step(Kind.Ending, RunState.Complete, records, outputs, Some(delivery), None);
          ghost var d0 := OnDisk();
          PerformOne(c, clock, d0, Revise(s));
          var ok := Append(s);
          if !ok {
            o := Some(RefusedAt(Kind.Ending));
            if cancelledAfter.Some? {
              DidStop(c, clock, d0, Part([Revise(s)], AtDesk(), None), OnDisk(), AtDesk(),
                      CancelBetween(AtDesk(), cancelledAfter.value), o);
            }
            return;
          }
          if cancelledAfter.None? {
            return Some(Ends(Finished));
          }
          ghost var d1, last := OnDisk(), Part([Revise(s)], AtDesk(), None);
          o := CancelRun(cancelledAfter.value);
          DidThen(c, clock, d0, last, d1, AtDesk(), CancelBetween(AtDesk(), cancelledAfter.value),
                  OnDisk(), AtDesk(), o);
      }
    }

    /** The loop over stages. */
    method VisitStages(visits: seq<Visit>, forced: set<string>, resume: bool) returns (o: Option<Outcome>)
      requires Valid() && ValidPlan(plan) && |visits| == |plan|
      modifies this
      ensures Valid()
      ensures Did(c, clock, old(OnDisk()), Visits(plan, old(AtDesk()), 0, visits, forced, {}, resume),
                  OnDisk(), AtDesk(), o)
    {
      hide ValidManifest, Follows, ValidPlan, Did, Visited;
      o := None;
      var invalidated := {};
      ghost var d0, whole := OnDisk(), Visits(plan, AtDesk(), 0, visits, forced, {}, resume);
      ghost var done := Idle(AtDesk());
      DidNothing(c, clock, d0, AtDesk());
      IdleThen(whole);
      for k := 0 to |plan|
        invariant Valid() && o.None?
        invariant done.desk == AtDesk() && Did(c, clock, d0, done, OnDisk(), AtDesk(), None)
        invariant whole == Then(done, Visits(plan, AtDesk(), k, visits, forced, invalidated, resume))
      {
        ghost var desk, d1 := AtDesk(), OnDisk();
        ghost var t := Visited(plan, desk, k, visits[k], forced, invalidated, resume);
        ghost var rest := Visits(plan, t.part.desk, k + 1, visits, forced, t.invalidated, resume);
        VisitsUnfold(plan, desk, k, visits, forced, invalidated, resume);
        o, invalidated := VisitStage(k, visits[k], forced, invalidated, resume);
        DidThen(c, clock, d0, done, d1, desk, t.part, OnDisk(), AtDesk(), o);
        DidEnds(c, clock, d0, done, d1, desk);
        ThenAssociates(done, t.part, rest);
        if o.Some? {
          DidStop(c, clock, d0, Then(done, t.part), OnDisk(), AtDesk(), rest, o);
          return;
        }
        DidDesk(c, clock, d0, Then(done, t.part), OnDisk(), AtDesk());
        done := Then(done, t.part);
      }
      VisitsEnd(plan, AtDesk(), visits, forced, invalidated, resume);
      DidEnds(c, clock, d0, done, OnDisk(), AtDesk());
      ThenIdle(done);
    }

    /** `execute_plan`. */
    method Execute(resume: bool, selected: set<string>, script: Script) returns (o: Option<Outcome>)
      requires Valid() && ValidPlan(plan) && |script.visits| == |plan|
      modifies this
      ensures Valid()
      ensures Did(c, clock, old(OnDisk()), SessionPart(plan, old(AtDesk()), resume, selected, script),
                  OnDisk(), AtDesk(), o)
      ensures !resume ==>
        var s := Setting(plan, old(AtDesk()), false, selected, script);
        o == OutcomeFrom(c, clock, old(OnDisk()), s) && OnDisk() == DiskAfter(c, clock, old(OnDisk()), s)
    {
      hide ValidManifest, Follows, ValidPlan, Did, Visits, Marked, Ended, FrontierOf;
      ghost var s := Setting(plan, AtDesk(), resume, selected, script);
      var frontier := Frontier(plan, selected);
      FrontierIsDescendants(plan, selected, frontier);
      var forced := frontier + Due(records);
      ghost var d0, marked := OnDisk(), Marked(AtDesk(), forced, script.damaged);
      ghost var visited := Visits(plan, marked.desk, 0, script.visits, forced, {}, resume);
      ghost var ended := Ended(visited.desk, script.ending);
      o := MarkReruns(forced, script.damaged);
      if o.Some? {
        DidStop(c, clock, d0, marked, OnDisk(), AtDesk(), Then(visited, ended), o);
        DidFresh(c, clock, d0, s, OnDisk(), AtDesk(), o);
        return;
      }
      DidDesk(c, clock, d0, marked, OnDisk(), AtDesk());
      ghost var d1 := OnDisk();
      o := VisitStages(script.visits, forced, resume);
      if o.Some? {
        DidStop(c, clock, d1, visited, OnDisk(), AtDesk(), ended, o);
      } else {
        DidDesk(c, clock, d1, visited, OnDisk(), AtDesk());
        ghost var d2 := OnDisk();
        o := FinishRun(script.ending);
        DidThen(c, clock, d1, visited, d2, visited.desk, ended, OnDisk(), AtDesk(), o);
      }
      DidThen(c, clock, d0, marked, d1, marked.desk, Then(visited, ended), OnDisk(), AtDesk(), o);
      DidFresh(c, clock, d0, s, OnDisk(), AtDesk(), o);
    }

    /** `resume_v3`: wherever the last session left the run, its last accepted revision is
        where this one starts; an unfinished run is first recorded as interrupted. */
    method Resume(selected: set<string>, script: Script) returns (o: Option<Outcome>)
      requires Valid() && ValidPlan(plan) && |script.visits| == |plan|
      requires |Last(chain).payload.stages| == |plan|
      modifies this
      ensures Valid()
      ensures var last := old(Last(chain)).payload;
        Did(c, clock, old(OnDisk()),
            ResumedPart(plan, last.state, Desk(last.stages, old(store)), selected, script),
            OnDisk(), AtDesk(), o)
      ensures var s := Setting(plan, Desk(old(Last(chain)).payload.stages, old(store)), true, selected, script);
        o == OutcomeFrom(c, clock, old(OnDisk()), s) && OnDisk() == DiskAfter(c, clock, old(OnDisk()), s)
    {
      hide ValidManifest, Follows, ValidPlan, Takes, SessionPart;
      records := Last(chain).payload.stages;
      ghost var d0, desk := OnDisk(), AtDesk();
      ghost var session := SessionPart(plan, desk, true, selected, script);
      if !Last(chain).payload.state.Running? {
        DidNothing(c, clock, d0, desk);
        o := Execute(true, selected, script);
        DidThen(c, clock, d0, Idle(desk), d0, desk, session, OnDisk(), AtDesk(), o);
        return;
      }
      var s := Step(Interrupting, Interrupted, records, [], None, Some(INTERRUPTED));
      ghost var first := Part([Revise(s)], desk, None);
      PerformOne(c, clock, d0, Revise(s));
      var ok := Append(s);
      if !ok {
        o := Some(RefusedAt(Interrupting));
        DidStop(c, clock, d0, first, OnDisk(), AtDesk(), session, o);
        return;
      }
      ghost var d1 := OnDisk();
      o := Execute(true, selected, script);
      DidThen(c, clock, d0, first, d1, desk, session, OnDisk(), AtDesk(), o);
    }
  }

  lemma DidFresh(c: Context, clock: nat -> int, d0: Disk, s: Setting, d1: Disk, desk: Desk, o: Option<Outcome>)
    requires d0.chain != [] && Shaped(s)
    requires Did(c, clock, d0, SessionPart(s.plan, s.start, s.resume, s.selected, s.script), d1, desk, o)
    ensures !s.resume ==> o == OutcomeFrom(c, clock, d0, s) && d1 == DiskAfter(c, clock, d0, s)
  {
    hide Perform, SessionPart;
  }

  /** The record is invalidated for a reason, and keeps what it owes. */
  predicate IsInvalidated(before: Record, r: Record, why: Decision) {
    && r.state.Invalidated? && r.checkpoint == None && r.compatibility == Some(why)
    && r.message == Some("checkpoint evidence is incompatible and will be rebuilt")
    && r.stageId == before.stageId && r.rerunRequired == before.rerunRequired && r.excluded == before.excluded
  }

  lemma ClearedMeans(f: set<string>, k: nat, decision: Decision, r: Record, i: nat)
    requires r.stageId in f
    ensures IsInvalidated(r, Cleared(f, k, decision, r, i, 0), if i == k then decision else Decision(false, [
      Reason(DependencyChanged, "a declared dependency was invalidated in this resume")]))
  {
  }

  // ------------------------------------------------------------------------ unfolding

  /** How many of the records from the `j`-th on are in a set of stages. */
  function HowMany(f: set<string>, records: seq<Record>, j: nat): nat
    requires j <= |records|
    decreases |records| - j
  {
    if j == |records| then 0 else (if records[j].stageId in f then 1 else 0) + HowMany(f, records, j + 1)
  }

  lemma {:induction false} SameHowMany(f: set<string>, left: seq<Record>, right: seq<Record>, j: nat)
    requires |left| == |right| && j <= |left| && forall i :: j <= i < |left| ==> left[i] == right[i]
    ensures HowMany(f, left, j) == HowMany(f, right, j)
    decreases |left| - j
  {
    if j < |left| {
      SameHowMany(f, left, right, j + 1);
    }
  }

  /** An invalidation is one revision for every stage of the frontier. */
  lemma {:induction false} InvalidationRevisions(f: set<string>, k: nat, decision: Decision, desk: Desk, j: nat)
    requires j <= |desk.records|
    ensures |Revised(Invalidation(f, k, decision, desk, j).effects)| == HowMany(f, desk.records, j)
    decreases |desk.records| - j
  {
    hide Why, InvalidatedRecord, Revised;
    if j == |desk.records| {
      assert Revised([]) == [] by { NothingRevised(); }
    } else if desk.records[j].stageId in f {
      var one := Change(Invalidating(j), desk, j, InvalidatedRecord(desk.records[j], Why(k, j, decision)));
      var rest := Invalidation(f, k, decision, one.desk, j + 1);
      InvalidationRevisions(f, k, decision, one.desk, j + 1);
      RevisedJoin(one.effects, rest.effects);
      OneRevised(one.effects[0].step);
      SameHowMany(f, desk.records, one.desk.records, j + 1);
    } else {
      InvalidationRevisions(f, k, decision, desk, j + 1);
    }
  }

  lemma NothingRevised()
    ensures Revised([]) == []
  {
  }

  lemma DidInvalidation(c: Context, clock: nat -> int, d0: Disk, f: set<string>, k: nat, decision: Decision,
                        desk: Desk, d1: Disk, last: Desk)
    requires d0.chain != [] && Did(c, clock, d0, Invalidation(f, k, decision, desk, 0), d1, last, None)
    ensures |last.records| == |desk.records| && last.store == desk.store
    ensures |d1.chain| == |d0.chain| + HowMany(f, desk.records, 0)
    ensures forall i :: 0 <= i < |desk.records| ==>
      last.records[i] == Cleared(f, k, decision, desk.records[i], i, 0)
  {
    hide Perform, Invalidation, Revised, Cleared, HowMany;
    InvalidationResult(f, k, decision, desk, 0);
    InvalidationRevisions(f, k, decision, desk, 0);
    PerformedAll(c, clock, d0, Invalidation(f, k, decision, desk, 0).effects);
  }

  lemma DidDesk(c: Context, clock: nat -> int, d0: Disk, p: Part, d1: Disk, desk: Desk)
    requires d0.chain != [] && Did(c, clock, d0, p, d1, desk, None)
    ensures desk == p.desk
  {
    hide Perform;
  }

  lemma DidEnds(c: Context, clock: nat -> int, d0: Disk, p: Part, d1: Disk, desk: Desk)
    requires d0.chain != [] && Did(c, clock, d0, p, d1, desk, None)
    ensures p.end.None?
  {
    hide Perform;
  }

  lemma DidPublish(c: Context, clock: nat -> int, d: Disk, k: nat, digest: string, desk: Desk)
    requires d.chain != [] && k < |d.store|
    ensures Did(c, clock, d, Part([Publish(k, digest)], desk, None),
                d.(store := d.store[k := d.store[k] + [digest]]), desk, None)
  {
    PerformOne(c, clock, d, Publish(k, digest));
  }

  lemma IdleThen(p: Part)
    ensures forall desk :: Then(Idle(desk), p) == p
  {
  }

  lemma ThenAssociates(p: Part, q: Part, r: Part)
    ensures Then(p, Then(q, r)) == Then(Then(p, q), r)
  {
  }

  lemma InvalidationUnfolds(f: set<string>, k: nat, decision: Decision, desk: Desk, j: nat)
    requires j < |desk.records|
    ensures Invalidation(f, k, decision, desk, j) ==
      if desk.records[j].stageId in f then
        var one := Change(Invalidating(j), desk, j, InvalidatedRecord(desk.records[j], Why(k, j, decision)));
        Then(one, Invalidation(f, k, decision, one.desk, j + 1))
      else Invalidation(f, k, decision, desk, j + 1)
  {
  }

  lemma InvalidationEnds(f: set<string>, k: nat, decision: Decision, desk: Desk)
    ensures Invalidation(f, k, decision, desk, |desk.records|) == Idle(desk)
  {
  }

  lemma VisitsUnfold(plan: seq<PlanStage>, desk: Desk, k: nat, visits: seq<Visit>, forced: set<string>,
                     invalidated: set<string>, resume: bool)
    requires k < |desk.records| == |plan| == |visits| && Fits(desk)
    ensures Visits(plan, desk, k, visits, forced, invalidated, resume) ==
      var t := Visited(plan, desk, k, visits[k], forced, invalidated, resume);
      Then(t.part, Visits(plan, t.part.desk, k + 1, visits, forced, t.invalidated, resume))
  {
  }

  lemma VisitsEnd(plan: seq<PlanStage>, desk: Desk, visits: seq<Visit>, forced: set<string>,
                  invalidated: set<string>, resume: bool)
    requires |desk.records| == |plan| == |visits| && Fits(desk)
    ensures Visits(plan, desk, |plan|, visits, forced, invalidated, resume) == Idle(desk)
  {
  }
}
