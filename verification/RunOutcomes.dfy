/** How sessions of a run end, src/run_v3.rs, told from the disk that they start from: exactly
    which are refused, exactly which complete the run, and what these leave on disk. */
module RunOutcomes {
  import opened PipelineGraph
  import RunDirectory
  import opened RunExecution
  import opened RunFates
  import opened RunJudgement
  import opened RunManifests
  import opened RunRebuilds
  import opened RunSafety
  import opened RunTrace
  import opened Widths
  import opened Wrappers

  /** A session that starts from a disk: the first one of a run from its first revision. */
  ghost predicate Opens(c: Context, d: Disk, s: Setting) {
    && Speaks(c) && ValidPlan(s.plan) && Sound(c, s.plan, d) && Plausible(c, |s.plan|, s.script)
    && s.start == Desk(Last(d.chain).payload.stages, d.store)
    && (!s.resume ==> |d.chain| == 1)
  }

  ghost function Whole(s: Setting, state: RunState): Part
    requires Shaped(s)
  {
    if s.resume then ResumedPart(s.plan, state, s.start, s.selected, s.script) else PartOf(s)
  }

  lemma OpensReady(c: Context, d: Disk, s: Setting)
    requires Opens(c, d, s)
    ensures d.chain != [] && Ready(s) && Likely(c, s)
    ensures s.resume || Last(d.chain).payload.state.Running?
  {
    SoundMeans(c, s.plan, d);
    assert OrderlyDesk(s.plan, s.start) && ValidChain(c, d.chain);
    hide OrderlyDesk, ValidPlan, Speaks, PlausibleVisit, PlausibleEnding, DependenciesReady, StageStep, Follows;
    LastIsValid(c, d.chain);
    NoneIsSkipped(c, d.chain);
    hide ValidRecord, ValidChain;
  }

  lemma NoneIsSkipped(c: Context, chain: seq<Manifest>)
    requires ValidChain(c, chain) && chain != []
    ensures forall j :: 0 <= j < |Last(chain).payload.stages| ==> !Last(chain).payload.stages[j].state.Skipped?
  {
    hide ValidRecord, StageStep, ValidManifest, Follows, ValidChain, Life;
    AuthorityIsImmutable(c, chain, 0, |chain| - 1);
    SameIdsSameLength(chain[0].payload.stages, Last(chain).payload.stages);
    forall j | 0 <= j < |Last(chain).payload.stages| ensures !Last(chain).payload.stages[j].state.Skipped? {
      ChainLives(c, chain, j);
      PendingOnlyAtFirst(c, History(chain, j), 0, |chain| - 1);
    }
  }

  lemma WholeIsProper(c: Context, d: Disk, s: Setting)
    requires Opens(c, d, s)
    ensures d.chain != [] && Shaped(s) && |s.start.records| == |s.plan|
    ensures ProperPart(c, s.plan, s.start, Whole(s, Last(d.chain).payload.state))
  {
    OpensReady(c, d, s);
    hide OrderlyDesk, ValidPlan, Speaks, Plausible, ProperPart, SessionPart, ResumedPart;
    if s.resume {
      ProperResumed(c, s.plan, Last(d.chain).payload.state, s.start, s.selected, s.script);
    } else {
      ProperSession(c, s.plan, s.start, false, s.selected, s.script);
    }
  }

  /** The note that an unfinished run was interrupted is no obstacle and changes nothing. */
  lemma WholeIsJudged(c: Context, s: Setting, state: RunState)
    requires Ready(s) && Likely(c, s) && (s.resume || state.Running?)
    ensures var p := Whole(s, state);
      && (forall kind :: Judge(c, state, s.start.records, p.effects) == Some(kind) <==> RefusedFrom(s, 0, kind))
      && p.end == PartOf(s).end && p.desk == PartOf(s).desk
    ensures Revised(Whole(s, state).effects) == (if s.resume && state.Running? then [s.start.records] else [])
                                                + Revised(PartOf(s).effects)
  {
    assert Shaped(s);
    hide Ready, Judge, RefusedFrom, SessionPart, Revised, StateAfter, Coherent, AllValid;
    if s.resume && state.Running? {
      var note := Step(Interrupting, Interrupted, s.start.records, [], None, Some(INTERRUPTED));
      var first := Part([Revise(note)], s.start, None);
      JudgeNote(c, state, s.start, note, None);
      OneRevised(note);
      RevisedJoin(first.effects, PartOf(s).effects);
      SessionIsJudged(c, s, Interrupted);
      JudgeThen(c, state, s.start, first, PartOf(s));
    } else {
      assert [] + PartOf(s).effects == PartOf(s).effects;
      SessionIsJudged(c, s, state);
    }
  }

  /** A session that is refused nowhere leaves on disk all that it did. */
  lemma {:induction false} PerformedAll(c: Context, clock: nat -> int, d: Disk, effects: seq<Effect>)
    requires d.chain != [] && Perform(c, clock, d, effects).refused.None?
    ensures var after := Perform(c, clock, d, effects).disk;
      && Desk(Last(after.chain).payload.stages, after.store)
         == AfterEffects(Desk(Last(d.chain).payload.stages, d.store), effects)
      && |after.chain| == |d.chain| + |Revised(effects)|
      && (forall i :: 0 <= i < |d.chain| ==> after.chain[i] == d.chain[i])
      && (forall i :: 0 <= i < |Revised(effects)| ==>
            after.chain[|d.chain| + i].payload.stages == Revised(effects)[i])
    decreases |effects|
  {
    hide ValidManifest, Follows;
    if effects != [] {
      var next := Apply(c, clock, d, effects[0]);
      PerformedAll(c, clock, next, effects[1..]);
      OneApplied(c, clock, d, effects[0]);
      hide Apply, Takes;
      var after := Perform(c, clock, next, effects[1..]).disk;
      forall i | 0 <= i < |Revised(effects)|
        ensures |d.chain| + i < |after.chain| && after.chain[|d.chain| + i].payload.stages == Revised(effects)[i]
      {
        if effects[0].Revise? {
          if i > 0 {
            assert Revised(effects)[i] == Revised(effects[1..])[i - 1];
            assert after.chain[|next.chain| + (i - 1)].payload.stages == Revised(effects[1..])[i - 1];
          }
        } else {
          assert Revised(effects) == Revised(effects[1..]);
        }
      }
    }
  }

  lemma OneApplied(c: Context, clock: nat -> int, d: Disk, e: Effect)
    requires d.chain != [] && Takes(c, clock, d, e)
    ensures var next := Apply(c, clock, d, e);
      && Desk(Last(next.chain).payload.stages, next.store)
         == AfterEffect(Desk(Last(d.chain).payload.stages, d.store), e)
      && |next.chain| == |d.chain| + (if e.Revise? then 1 else 0)
      && (forall i :: 0 <= i < |d.chain| ==> next.chain[i] == d.chain[i])
      && (e.Revise? ==> next.chain[|d.chain|].payload.stages == e.step.stages)
  {
    hide ValidManifest, Follows;
  }

  // ------------------------------------------------------------------------ outcomes

  ghost function OutcomeFrom(c: Context, clock: nat -> int, d: Disk, s: Setting): Option<Outcome>
    requires d.chain != [] && Shaped(s)
  {
    var p := Whole(s, Last(d.chain).payload.state);
    OutcomeOf(p, Perform(c, clock, d, p.effects))
  }

  ghost function DiskAfter(c: Context, clock: nat -> int, d: Disk, s: Setting): (after: Disk)
    requires d.chain != [] && Shaped(s)
    ensures after.chain != []
  {
    Perform(c, clock, d, Whole(s, Last(d.chain).payload.state).effects).disk
  }

  /** The most that a session over `n` stages can do. */
  function MostEffects(n: nat): nat {
    n * (n + 5) + 4
  }

  /** There are revision numbers left for the session. */
  ghost predicate HasRoom(d: Disk, s: Setting) {
    |d.chain| + MostEffects(|s.plan|) < U64_LIMIT
  }

  lemma {:induction false} InvalidationBound(f: set<string>, k: nat, decision: Decision, desk: Desk, j: nat)
    requires j <= |desk.records|
    ensures |Invalidation(f, k, decision, desk, j).effects| <= |desk.records| - j
    decreases |desk.records| - j
  {
    hide Why, InvalidatedRecord;
    if j < |desk.records| {
      var one := Change(Invalidating(j), desk, j, InvalidatedRecord(desk.records[j], Why(k, j, decision)));
      InvalidationBound(f, k, decision, one.desk, j + 1);
      InvalidationBound(f, k, decision, desk, j + 1);
    }
  }

  lemma BuildBound(desk: Desk, k: nat, a: Attempt)
    requires k < |desk.records| && Fits(desk)
    ensures |Build(desk, k, a).effects| <= 5
  {
  }

  lemma VisitBound(s: Setting, k: nat, desk: Desk, invalidated: set<string>)
    requires Shaped(s) && k < |s.plan| == |desk.records| && Fits(desk)
    ensures |TurnOf(s, k, desk, invalidated).part.effects| <= |s.plan| + 5
  {
    var visit := s.script.visits[k];
    var f := FrontierOf(s.plan, {s.plan[k].id});
    var cleared := Invalidation(f, k, visit.otherwise, desk, 0);
    InvalidationBound(f, k, visit.otherwise, desk, 0);
    BuildBound(desk, k, visit.attempt);
    BuildBound(cleared.desk, k, visit.attempt);
    hide Build, Invalidation, FrontierOf, Forced;
  }

  lemma {:induction false} VisitsBound(s: Setting, k: nat, desk: Desk, invalidated: set<string>)
    requires Shaped(s) && k <= |s.plan| == |desk.records| && Fits(desk)
    ensures |Onward(s, k, desk, invalidated).effects| <= (|s.plan| - k) * (|s.plan| + 5)
    decreases |s.plan| - k
  {
    hide Onward, TurnOf;
    if k == |s.plan| {
      OnwardEnds(s, desk, invalidated);
    } else {
      OnwardUnfolds(s, k, desk, invalidated);
      VisitBound(s, k, desk, invalidated);
      var t := TurnOf(s, k, desk, invalidated);
      VisitsBound(s, k + 1, t.part.desk, t.invalidated);
      var left := |s.plan| - k;
      assert left * (|s.plan| + 5) == (left - 1) * (|s.plan| + 5) + (|s.plan| + 5);
    }
  }

  lemma WholeBound(s: Setting, state: RunState)
    requires Shaped(s)
    ensures |Whole(s, state).effects| <= MostEffects(|s.plan|)
  {
    PartBound(s);
    hide PartOf, SessionPart;
    assert s.resume ==> PartOf(s) == SessionPart(s.plan, s.start, true, s.selected, s.script) by { PartIs(s); }
  }

  lemma PartIs(s: Setting)
    requires Shaped(s)
    ensures PartOf(s) == SessionPart(s.plan, s.start, s.resume, s.selected, s.script)
  {
  }

  lemma PartBound(s: Setting)
    requires Shaped(s)
    ensures |PartOf(s).effects| < MostEffects(|s.plan|)
  {
    var marked := MarkedPart(s);
    assert |marked.effects| <= 1 by { hide Forced; }
    PartUnfolds(s);
    VisitsBound(s, 0, marked.desk, {});
    hide Onward, PartOf, MarkedPart;
  }

  /** A session is refused exactly at a visit that it meets and that the rules refuse, and
      ends otherwise as told from its start: it completes the run exactly if nothing is
      refused, every visit goes on, and the ending completes. */
  lemma SessionOutcome(c: Context, clock: nat -> int, d: Disk, s: Setting)
    requires Opens(c, d, s)
    ensures d.chain != [] && Shaped(s)
    ensures HasRoom(d, s) ==>
      var o := OutcomeFrom(c, clock, d, s);
      && o.Some? && !o.value.OutOfRevisions?
      && (forall kind :: o == Some(Refused(kind)) <==> RefusedFrom(s, 0, kind))
      && ((forall kind :: !RefusedFrom(s, 0, kind)) ==> o == Some(Ends(SessionEnd(s))))
      && (o == Some(Ends(Finished)) <==> RunsThrough(s) && forall kind :: !RefusedFrom(s, 0, kind))
  {
    OpensReady(c, d, s);
    WholeIsProper(c, d, s);
    var state := Last(d.chain).payload.state;
    WholeIsJudged(c, s, state);
    SessionSettles(s);
    hide Ready, Likely, Sound, RefusedFrom, RunsThrough, Judge, Perform, Proper, PartOf, Whole, Plausible, Speaks;
    hide SessionEnd;
    hide ValidPlan, OrderlyDesk;
    if HasRoom(d, s) {
      WholeBound(s, state);
      OutcomeIsJudged(c, s.plan, clock, d, Whole(s, state));
    }
  }

  /** A session that completes the run leaves every stage settled: kept with the checkpoint
      it starts out with, or completed with the one that this session published. */
  lemma FinishedLeaves(c: Context, clock: nat -> int, d: Disk, s: Setting)
    requires Opens(c, d, s)
    ensures d.chain != [] && Shaped(s)
    ensures OutcomeFrom(c, clock, d, s) == Some(Ends(Finished)) ==>
      var after := DiskAfter(c, clock, d, s);
      AllSettled(s, Desk(Last(after.chain).payload.stages, after.store))
  {
    OpensReady(c, d, s);
    WholeIsProper(c, d, s);
    var state := Last(d.chain).payload.state;
    WholeIsJudged(c, s, state);
    SessionSettles(s);
    hide Ready, Likely, Sound, RefusedFrom, RunsThrough, Judge, Perform, Proper, PartOf, Whole, Plausible, Speaks;
    hide SessionEnd;
    hide ValidPlan, OrderlyDesk, AllSettled;
    if OutcomeFrom(c, clock, d, s) == Some(Ends(Finished)) {
      PerformedAll(c, clock, d, Whole(s, state).effects);
    }
  }

  /** Revision `i` changes stage `x` to invalidated, or its explanation. */
  predicate InvalidatedAt(chain: seq<Manifest>, i: nat, x: nat)
    requires 0 < i < |chain|
  {
    && x < |chain[i].payload.stages| && x < |chain[i - 1].payload.stages|
    && chain[i].payload.stages[x].state.Invalidated?
    && chain[i].payload.stages[x] != chain[i - 1].payload.stages[x]
  }

  /** Stage `j` newly runs in revision `i`, is validated in the next, and complete in the
      one after that. */
  predicate BuiltAt(chain: seq<Manifest>, i: nat, j: nat)
    requires 0 < i < |chain|
  {
    && i + 2 < |chain| && j < |chain[i - 1].payload.stages| && j < |chain[i].payload.stages|
    && j < |chain[i + 1].payload.stages| && j < |chain[i + 2].payload.stages|
    && !chain[i - 1].payload.stages[j].state.Running? && chain[i].payload.stages[j].state.Running?
    && chain[i + 1].payload.stages[j].state.Validating? && chain[i + 2].payload.stages[j].state.Complete?
  }

  /** The stages of a session's revisions. */
  ghost predicate Tells(d: Disk, after: Disk, h: seq<seq<Record>>)
    requires d.chain != []
  {
    && |after.chain| == |d.chain| + |h|
    && (forall i :: 0 <= i < |d.chain| ==> after.chain[i] == d.chain[i])
    && (forall i :: 0 <= i < |h| ==> after.chain[|d.chain| + i].payload.stages == h[i])
  }

  lemma TellsBefore(d: Disk, after: Disk, h: seq<seq<Record>>, i: nat)
    requires d.chain != [] && Tells(d, after, h) && i < |h|
    ensures |d.chain| + i < |after.chain|
    ensures after.chain[|d.chain| + i].payload.stages == h[i]
    ensures after.chain[|d.chain| + i - 1].payload.stages == Before(Last(d.chain).payload.stages, h, i)
  {
    if i > 0 {
      assert after.chain[|d.chain| + (i - 1)].payload.stages == h[i - 1];
    }
  }

  lemma TellsBuilt(d: Disk, after: Disk, h: seq<seq<Record>>, from: nat, j: nat, done: Record)
    requires d.chain != [] && Tells(d, after, h) && Rebuilt(Last(d.chain).payload.stages, h, from, j, done)
    ensures exists m :: |d.chain| + from <= m < |after.chain| && BuiltAt(after.chain, m, j)
  {
    hide Tells;
    var i :| from <= i < |h| && Builds(Last(d.chain).payload.stages, h, i, j, done);
    TellsBefore(d, after, h, i);
    TellsBefore(d, after, h, i + 1);
    TellsBefore(d, after, h, i + 2);
    assert BuiltAt(after.chain, |d.chain| + i, j);
  }

  lemma TellsInvalidated(d: Disk, after: Disk, h: seq<seq<Record>>, i: nat, x: nat)
    requires d.chain != [] && Tells(d, after, h) && |d.chain| <= i < |after.chain|
    requires InvalidatedAt(after.chain, i, x)
    ensures Invalidates(Last(d.chain).payload.stages, h, i - |d.chain|, x)
  {
    TellsBefore(d, after, h, i - |d.chain|);
  }

  lemma PerformedTells(c: Context, clock: nat -> int, d: Disk, effects: seq<Effect>)
    requires d.chain != []
    ensures var r := Perform(c, clock, d, effects);
      r.refused.None? ==> Tells(d, r.disk, Revised(effects))
  {
    hide Perform, Revised;
    if Perform(c, clock, d, effects).refused.None? {
      PerformedAll(c, clock, d, effects);
    }
  }

  lemma FinishedTells(c: Context, clock: nat -> int, d: Disk, s: Setting)
    requires Opens(c, d, s)
    ensures d.chain != [] && Ready(s)
    ensures OutcomeFrom(c, clock, d, s) == Some(Ends(Finished)) ==>
      var h := Revised(Whole(s, Last(d.chain).payload.state).effects);
      && RunsThrough(s) && AllGoOn(s)
      && Tells(d, DiskAfter(c, clock, d, s), h) && NothingStale(s, 0, s.start.records, h)
  {
    OpensReady(c, d, s);
    assert Shaped(s);
    hide Ready, Opens, Likely, RefusedFrom, Judge, Perform, PartOf, Whole, NothingStale, Tells, RunsThrough, GoesOn;
    hide SessionEnd;
    hide Revised;
    var state := Last(d.chain).payload.state;
    WholeIsJudged(c, s, state);
    SessionSettles(s);
    PerformedTells(c, clock, d, Whole(s, state).effects);
    if OutcomeFrom(c, clock, d, s) == Some(Ends(Finished)) {
      assert AllGoOn(s) by { ThroughMeans(s); }
      SessionRenews(s);
      NoteFirst(s, Revised(PartOf(s).effects), s.resume && state.Running?);
    }
  }

  lemma ThroughMeans(s: Setting)
    requires Shaped(s) && RunsThrough(s)
    ensures AllGoOn(s)
  {
    hide GoesOn;
  }

  lemma NoteFirst(s: Setting, h: seq<seq<Record>>, noted: bool)
    requires Ready(s) && AllGoOn(s) && NothingStale(s, 0, s.start.records, h)
    ensures NothingStale(s, 0, s.start.records, (if noted then [s.start.records] else []) + h)
  {
    assert Shaped(s);
    SameSpares(s.start.records);
    hide Ready, AllGoOn, NothingStale, Invalidates;
    ForcedFirst(s, s.start.records, if noted then [s.start.records] else [], h);
  }

  /** A session that completes the run leaves nothing stale: whenever one of its revisions
      invalidates a stage, that stage and everything that depends on it is built afterwards. */
  lemma NoStaleDependents(c: Context, clock: nat -> int, d: Disk, s: Setting, i: nat, x: nat, j: nat)
    requires Opens(c, d, s)
    requires d.chain != [] && Shaped(s) && OutcomeFrom(c, clock, d, s) == Some(Ends(Finished))
    requires var chain := DiskAfter(c, clock, d, s).chain;
      |d.chain| <= i < |chain| && x < |s.plan| && j < |s.plan| && InvalidatedAt(chain, i, x)
    requires j == x || Reaches(s.plan, j, x)
    ensures var chain := DiskAfter(c, clock, d, s).chain;
      exists m :: i < m < |chain| && BuiltAt(chain, m, j)
  {
    assert s.start.records == Last(d.chain).payload.stages;
    assert Affected(s.plan, x, j);
    hide Opens, Reaches, DiskAfter, OutcomeFrom, Whole, Revised, Rebuilt, Settled;
    FinishedTells(c, clock, d, s);
    var h := Revised(Whole(s, Last(d.chain).payload.state).effects);
    var after := DiskAfter(c, clock, d, s);
    AllGoOnAt(s, j);
    hide Tells, Ready, AllGoOn, RunsThrough, Invalidates, InvalidatedAt, Affected, BuiltAt, GoesOn, FateOf;
    TellsInvalidated(d, after, h, i, x);
    TellsBuilt(d, after, h, i - |d.chain| + 1, j, Settled(s, j));
  }

  // ------------------------------------------------------------------- the directory

  /** A directory that holds the session's chain publishes a revision exactly when the
      lifecycle rules take it, and then holds the longer chain. */
  lemma DirectoryAgrees(c: Context, clock: nat -> int, runId: string, listing: seq<RunDirectory.File>, d: Disk, s: Step)
    requires RunDirectory.NamesDiffer(listing) && d.chain != []
    requires RunDirectory.Holds(c, runId, listing, d.chain)
    ensures var m := Proposed(c, clock, d, s);
      var longer := listing + [RunDirectory.File(m.payload.revision, m)];
      && (Takes(c, clock, d, Revise(s)) <==> !RunDirectory.NoneContinues(c, runId, listing, m))
      && (Takes(c, clock, d, Revise(s)) ==>
            && RunDirectory.NamesDiffer(longer)
            && RunDirectory.Holds(c, runId, longer, Apply(c, clock, d, Revise(s)).chain))
  {
    var m := Proposed(c, clock, d, s);
    RunDirectory.HeldIsValid(c, runId, listing, d.chain);
    LastIsValid(c, d.chain);
    ChainOneMore(c, d.chain, m);
    assert m.payload.runId == runId && m.payload.revision == |d.chain| + 1;
    assert ValidManifest(c, m) ==> m.payload.revision < U64_LIMIT;
    hide ValidManifest, Follows, ValidChain, Proposed;
    if Takes(c, clock, d, Revise(s)) {
      RunDirectory.AppendHolds(c, runId, listing, d.chain, m);
    } else {
      ContinuesNot(c, runId, listing, d.chain, m);
    }
  }

  lemma ContinuesNot(c: Context, runId: string, listing: seq<RunDirectory.File>, chain: seq<Manifest>, m: Manifest)
    requires RunDirectory.NamesDiffer(listing) && RunDirectory.Holds(c, runId, listing, chain)
    requires !ValidChain(c, chain + [m])
    ensures RunDirectory.NoneContinues(c, runId, listing, m)
  {
    hide ValidChain, RunDirectory.Holds, RunDirectory.NamesDiffer;
    forall other | RunDirectory.Holds(c, runId, listing, other)
      ensures !(ValidChain(c, other + [m]) && m.payload.runId == runId)
    {
      RunDirectory.HeldOnce(c, runId, listing, chain, other);
    }
  }

  /** Whatever a session does, the directory follows: it holds the chain that the session
      leaves, and has lost no file. */
  lemma {:induction false} DirectoryFollows(c: Context, clock: nat -> int, runId: string,
                                            listing: seq<RunDirectory.File>, d: Disk, effects: seq<Effect>)
    returns (after: seq<RunDirectory.File>)
    requires RunDirectory.NamesDiffer(listing) && d.chain != []
    requires RunDirectory.Holds(c, runId, listing, d.chain)
    ensures RunDirectory.NamesDiffer(after) && listing <= after
    ensures RunDirectory.Holds(c, runId, after, Perform(c, clock, d, effects).disk.chain)
    decreases |effects|
  {
    hide RunDirectory.Holds, RunDirectory.NamesDiffer, Takes, RunDirectory.NoneContinues;
    after := listing;
    if effects != [] && Takes(c, clock, d, effects[0]) {
      var next := Apply(c, clock, d, effects[0]);
      if effects[0].Revise? {
        DirectoryAgrees(c, clock, runId, listing, d, effects[0].step);
        var m := Proposed(c, clock, d, effects[0].step);
        after := listing + [RunDirectory.File(m.payload.revision, m)];
      }
      after := DirectoryFollows(c, clock, runId, after, next, effects[1..]);
    }
  }

  /** A first session without requested reruns is refused nowhere. */
  lemma FreshIsNeverRefused(s: Setting, kind: Kind)
    requires Shaped(s) && !s.resume && Forced(s.plan, s.start.records, s.selected) == {}
    ensures !RefusedFrom(s, 0, kind)
  {
    forall k | 0 <= k < |s.plan| ensures !Refuses(s, k, kind) {
      assert FateOf(s, k) == Fresh;
    }
  }
}
