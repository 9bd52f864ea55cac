/** What sessions of a run leave on record, src/run_v3.rs: which checkpoints are kept and which
    stages are built, and what the last revision says of the run. */
module RunRecords {
  import opened PipelineGraph
  import opened RunExecution
  import opened RunFates
  import opened RunJudgement
  import opened RunManifests
  import opened RunOutcomes
  import opened RunRebuilds
  import opened RunSafety
  import opened RunTrace
  import opened Wrappers

  // ------------------------------------------------------------------ which are kept

  /** A rerun of the stage, or of one that it depends on, is requested or still due. */
  ghost predicate Asked(s: Setting, j: nat)
    requires Shaped(s) && j < |s.plan|
  {
    || s.start.records[j].rerunRequired || s.plan[j].id in s.selected
    || exists m :: 0 <= m < |s.plan| && Reaches(s.plan, j, m) && s.plan[m].id in s.selected
  }

  /** Candidate `i` is the newest compatible checkpoint on disk that is not excluded. */
  predicate Fitting(s: Setting, j: nat, i: nat)
    requires Shaped(s) && j < |s.plan|
  {
    FirstFit(s.script.visits[j].compatible, s.start.records[j].excluded, s.start.store[j], i)
  }

  ghost predicate HasFit(s: Setting, j: nat)
    requires Shaped(s) && j < |s.plan|
  {
    exists i: nat :: Fitting(s, j, i)
  }

  ghost predicate AncestorsFit(s: Setting, j: nat)
    requires Shaped(s) && j < |s.plan|
  {
    forall m :: 0 <= m < |s.plan| && Reaches(s.plan, j, m) ==> HasFit(s, m)
  }

  lemma AskedIsForced(s: Setting, j: nat)
    requires Ready(s) && j < |s.plan|
    ensures Asked(s, j) <==> IsForced(s, j)
  {
    AlignedMeans(s.plan, s.start.records);
    FrontierMeans(s.plan, s.selected, j);
    hide OrderlyDesk, Reaches, FrontierOf;
    if s.start.records[j].rerunRequired {
      DueIsForced(s, j);
    }
    if s.plan[j].id in Due(s.start.records) {
      var m :| 0 <= m < |s.plan| && s.start.records[m].rerunRequired && s.start.records[m].stageId == s.plan[j].id;
      SameIdSameStage(s.plan, m, j);
    }
  }

  /** With a stage, everything that depends on it is asked for. */
  lemma AskedBelow(s: Setting, j: nat, m: nat)
    requires Ready(s) && j < |s.plan| && m < |s.plan| && Reaches(s.plan, j, m) && Asked(s, m)
    ensures Asked(s, j)
  {
    AskedIsForced(s, m);
    AskedIsForced(s, j);
    hide Asked, Reaches;
    ForcedIsClosed(s.plan, s.start, s.selected, m, j);
  }

  lemma KeptIfFits(s: Setting, j: nat)
    requires Shaped(s) && j < |s.plan|
    ensures FirstKept(s.script.visits[j].compatible, s.start.records[j].excluded, s.start.store[j]).Some? <==>
      HasFit(s, j)
  {
    var visit := s.script.visits[j];
    var kept := FirstKept(visit.compatible, s.start.records[j].excluded, s.start.store[j]);
    if kept.Some? {
      var i: nat :| FirstFit(visit.compatible, s.start.records[j].excluded, s.start.store[j], i)
        && visit.compatible[i] == kept.value;
      assert Fitting(s, j, i);
    }
    if HasFit(s, j) {
      var i: nat :| Fitting(s, j, i);
      FitIsCandidate(s, j, i);
      assert kept == Some(visit.compatible[i]);
    }
  }

  lemma FitIsCandidate(s: Setting, j: nat, i: nat)
    requires Shaped(s) && j < |s.plan| && Fitting(s, j, i)
    ensures i < |s.script.visits[j].compatible|
  {
  }

  /** A stage is struck exactly if something that it depends on has no fitting checkpoint. */
  lemma StruckExactly(s: Setting, j: nat)
    requires Ready(s) && j < |s.plan| && s.resume && !Asked(s, j)
    ensures Struck(s, j, j) <==> !AncestorsFit(s, j)
  {
    hide Forced, OrderlyDesk, ValidPlan, Reaches, Asked, FirstFit;
    if Struck(s, j, j) {
      var m :| 0 <= m < j && FateOf(s, m).Root? && Reaches(s.plan, j, m);
      RootHasNoFit(s, m);
    }
    if !AncestorsFit(s, j) {
      var m :| 0 <= m < |s.plan| && Reaches(s.plan, j, m) && !HasFit(s, m);
      if Asked(s, m) {
        AskedBelow(s, j, m);
      }
      AskedIsForced(s, m);
      KeptIfFits(s, m);
      ReachesEarlier(s.plan, j, m);
      if Struck(s, m, m) {
        StruckAbove(s, m, j);
      } else {
        assert FateOf(s, m).Root?;
      }
    }
  }

  lemma RootHasNoFit(s: Setting, m: nat)
    requires Shaped(s) && m < |s.plan| && FateOf(s, m).Root?
    ensures !HasFit(s, m)
  {
    KeptIfFits(s, m);
    hide Forced, Struck, FirstFit, HasFit;
  }

  /** The fate of a stage, told from the request, the plan, and the checkpoints that fit. */
  lemma FatesExactly(s: Setting, j: nat)
    requires Ready(s) && j < |s.plan|
    ensures FateOf(s, j) == Rerun <==> Asked(s, j)
    ensures FateOf(s, j) == Fresh <==> !Asked(s, j) && !s.resume
    ensures FateOf(s, j) == Dependent <==> !Asked(s, j) && s.resume && !AncestorsFit(s, j)
    ensures FateOf(s, j) == Root <==> !Asked(s, j) && s.resume && AncestorsFit(s, j) && !HasFit(s, j)
    ensures forall digest :: FateOf(s, j) == Kept(digest) <==>
      && !Asked(s, j) && s.resume && AncestorsFit(s, j)
      && exists i: nat :: Fitting(s, j, i) && s.script.visits[j].compatible[i] == digest
  {
    AskedIsForced(s, j);
    if s.resume && !Asked(s, j) {
      StruckExactly(s, j);
    }
    KeptIfFits(s, j);
    forall i: nat | Fitting(s, j, i) ensures i < |s.script.visits[j].compatible| {
      FitIsCandidate(s, j, i);
    }
    hide Forced, OrderlyDesk, ValidPlan, Asked, AncestorsFit, Struck, FirstFit;
  }

  // -------------------------------------------------------------- the last revision

  lemma LastPerformed(c: Context, clock: nat -> int, d: Disk, effects: seq<Effect>)
    requires d.chain != [] && Perform(c, clock, d, effects).refused.None?
    requires effects != [] && effects[|effects| - 1].Revise?
    ensures var last := Last(Perform(c, clock, d, effects).disk.chain).payload;
      var step := effects[|effects| - 1].step;
      && last.state == step.state && last.outputs == step.outputs && last.delivery == step.delivery
      && last.diagnostic == step.diagnostic
    ensures |Perform(c, clock, d, effects).disk.chain| > |d.chain|
  {
    hide Perform;
    var n := |effects| - 1;
    assert effects == effects[..n] + [effects[n]];
    PerformJoin(c, clock, d, effects[..n], [effects[n]]);
    var before := Perform(c, clock, d, effects[..n]).disk;
    PerformOne(c, clock, before, effects[n]);
    PerformedAll(c, clock, d, effects[..n]);
    hide ValidManifest, Follows;
  }

  /** Revisions that leave the run incomplete. */
  predicate Quiet(effects: seq<Effect>) {
    forall i :: 0 <= i < |effects| && effects[i].Revise? ==> !effects[i].step.state.Complete?
  }

  lemma QuietThen(p: Part, q: Part)
    requires Quiet(p.effects) && Quiet(q.effects)
    ensures Quiet(Then(p, q).effects)
  {
  }

  lemma {:induction false} QuietInvalidation(f: set<string>, k: nat, decision: Decision, desk: Desk, j: nat)
    requires j <= |desk.records|
    ensures Quiet(Invalidation(f, k, decision, desk, j).effects)
    decreases |desk.records| - j
  {
    hide Why, InvalidatedRecord;
    if j < |desk.records| {
      var one := Change(Invalidating(j), desk, j, InvalidatedRecord(desk.records[j], Why(k, j, decision)));
      QuietInvalidation(f, k, decision, one.desk, j + 1);
      QuietInvalidation(f, k, decision, desk, j + 1);
      QuietThen(one, Invalidation(f, k, decision, one.desk, j + 1));
    }
  }

  lemma QuietBuild(desk: Desk, k: nat, a: Attempt)
    requires k < |desk.records| && Fits(desk)
    ensures Quiet(Build(desk, k, a).effects)
  {
  }

  lemma QuietTurn(s: Setting, k: nat, desk: Desk, invalidated: set<string>)
    requires Shaped(s) && k < |s.plan| == |desk.records| && Fits(desk)
    ensures Quiet(TurnOf(s, k, desk, invalidated).part.effects)
  {
    var visit := s.script.visits[k];
    var f := FrontierOf(s.plan, {s.plan[k].id});
    var cleared := Invalidation(f, k, visit.otherwise, desk, 0);
    QuietInvalidation(f, k, visit.otherwise, desk, 0);
    QuietBuild(desk, k, visit.attempt);
    QuietBuild(cleared.desk, k, visit.attempt);
    hide Build, Invalidation, FrontierOf, Forced, FirstKept;
    QuietThen(cleared, Build(cleared.desk, k, visit.attempt));
  }

  lemma {:induction false} QuietOnward(s: Setting, k: nat, desk: Desk, invalidated: set<string>)
    requires Shaped(s) && k <= |s.plan| == |desk.records| && Fits(desk)
    ensures Quiet(Onward(s, k, desk, invalidated).effects)
    decreases |s.plan| - k
  {
    hide Onward, TurnOf, Quiet;
    if k == |s.plan| {
      OnwardEnds(s, desk, invalidated);
      assert Quiet([]) by { NothingIsQuiet(); }
    } else {
      OnwardUnfolds(s, k, desk, invalidated);
      QuietTurn(s, k, desk, invalidated);
      var t := TurnOf(s, k, desk, invalidated);
      QuietOnward(s, k + 1, t.part.desk, t.invalidated);
      QuietThen(t.part, Onward(s, k + 1, t.part.desk, t.invalidated));
    }
  }

  lemma NothingIsQuiet()
    ensures Quiet([])
  {
  }

  /** Revisions of the end of a session. */
  predicate Concluding(effects: seq<Effect>) {
    forall i :: 0 <= i < |effects| ==>
      effects[i].Revise? && (effects[i].step.kind.Ending? || effects[i].step.kind.Cancelling?)
  }

  lemma MarkedIsQuiet(s: Setting)
    requires Shaped(s)
    ensures Quiet(MarkedPart(s).effects)
  {
    hide Forced;
  }

  lemma EndedConcludes(s: Setting)
    requires Shaped(s)
    ensures Concluding(EndedPart(s).effects)
  {
    hide Onward, MarkedPart;
  }

  lemma PartSplits(s: Setting) returns (early: seq<Effect>, late: seq<Effect>)
    requires Shaped(s)
    ensures PartOf(s).effects == early + late && Quiet(early) && Concluding(late)
  {
    hide Onward, PartOf, MarkedPart, EndedPart, Quiet, Concluding;
    var marked := MarkedPart(s);
    MarkedIsQuiet(s);
    PartUnfolds(s);
    QuietOnward(s, 0, marked.desk, {});
    EndedConcludes(s);
    var visited, ended := Onward(s, 0, marked.desk, {}), EndedPart(s);
    QuietThen(marked, visited);
    assert Concluding([]) by { NothingConcludes(); }
    early := Then(marked, visited).effects;
    late := if marked.end.None? && visited.end.None? then ended.effects else [];
    assert PartOf(s).effects == early + late;
  }

  lemma NothingConcludes()
    ensures Concluding([])
  {
  }

  /** Everything before the end of a session leaves the run incomplete. */
  lemma WholeSplits(s: Setting, state: RunState) returns (early: seq<Effect>, late: seq<Effect>)
    requires Shaped(s)
    ensures Whole(s, state).effects == early + late && Quiet(early) && Concluding(late)
  {
    early, late := PartSplits(s);
    PartIs(s);
    hide PartOf, SessionPart, Concluding;
    if s.resume && state.Running? {
      var note := Revise(Step(Interrupting, Interrupted, s.start.records, [], None, Some(INTERRUPTED)));
      assert [note] + (early + late) == ([note] + early) + late;
      early := [note] + early;
    } else {
      assert [] + PartOf(s).effects == PartOf(s).effects;
    }
  }

  lemma {:induction false} RefusedIsIn(c: Context, clock: nat -> int, d: Disk, effects: seq<Effect>)
    requires d.chain != []
    ensures var r := Perform(c, clock, d, effects); r.refused.Some? ==> r.refused.value in effects
    decreases |effects|
  {
    hide Takes, Apply;
    if effects != [] && Takes(c, clock, d, effects[0]) {
      RefusedIsIn(c, clock, Apply(c, clock, d, effects[0]), effects[1..]);
    }
  }

  lemma {:induction false} QuietStays(c: Context, clock: nat -> int, d: Disk, effects: seq<Effect>)
    requires d.chain != [] && Quiet(effects)
    ensures var after := Perform(c, clock, d, effects).disk.chain;
      && |d.chain| <= |after|
      && (forall i :: 0 <= i < |d.chain| ==> after[i] == d.chain[i])
      && (forall i :: |d.chain| <= i < |after| ==> !after[i].payload.state.Complete?)
    decreases |effects|
  {
    hide ValidManifest, Follows;
    if effects != [] && Takes(c, clock, d, effects[0]) {
      assert Quiet(effects[1..]);
      var next := Apply(c, clock, d, effects[0]);
      QuietStays(c, clock, next, effects[1..]);
      QuietStep(c, clock, d, effects[0]);
      hide Apply, Takes, Quiet;
      var after := Perform(c, clock, next, effects[1..]).disk.chain;
      forall i | |d.chain| <= i < |after| ensures !after[i].payload.state.Complete? {
        if i < |next.chain| {
          assert after[i] == next.chain[i];
        }
      }
    }
  }

  lemma QuietStep(c: Context, clock: nat -> int, d: Disk, e: Effect)
    requires d.chain != [] && Takes(c, clock, d, e) && (e.Revise? ==> !e.step.state.Complete?)
    ensures var next := Apply(c, clock, d, e).chain;
      && |d.chain| <= |next|
      && (forall i :: 0 <= i < |d.chain| ==> next[i] == d.chain[i])
      && (forall i :: |d.chain| <= i < |next| ==> !next[i].payload.state.Complete?)
  {
    hide ValidManifest, Follows;
  }

  /** A session that is refused leaves the run incomplete, if it records anything. */
  lemma RefusedStays(c: Context, clock: nat -> int, d: Disk, early: seq<Effect>, late: seq<Effect>)
    requires d.chain != [] && Quiet(early) && Concluding(late)
    ensures var r := Perform(c, clock, d, early + late);
      r.refused.Some? && r.refused.value.Revise? && !r.refused.value.step.kind.Ending?
      && !r.refused.value.step.kind.Cancelling? && |r.disk.chain| > |d.chain| ==>
        !Last(r.disk.chain).payload.state.Complete?
  {
    hide Perform;
    PerformJoin(c, clock, d, early, late);
    QuietStays(c, clock, d, early);
    RefusedIsIn(c, clock, Perform(c, clock, d, early).disk, late);
  }

  lemma WholeCloses(s: Setting, state: RunState)
    requires Ready(s)
    ensures Closes(s, Whole(s, state))
  {
    SessionSettles(s);
    assert Shaped(s);
    PartIs(s);
    hide Ready, SessionPart, PartOf, SessionStop, Closes;
    if s.resume {
      var first := if !state.Running? then Idle(s.start) else
        Part([Revise(Step(Interrupting, Interrupted, s.start.records, [], None, Some(INTERRUPTED)))], s.start, None);
      ClosesThen(s, first, PartOf(s));
    }
  }

  /** What a session records of the run, by its outcome. The last revision is complete exactly
      if the session completes the run, and has the outputs and the delivery of its ending;
      a session that fails or is cancelled says so, for the reason that stopped it. */
  lemma SessionIsRecorded(c: Context, clock: nat -> int, d: Disk, s: Setting)
    requires Opens(c, d, s) && HasRoom(d, s)
    ensures d.chain != [] && Shaped(s)
    ensures var o := OutcomeFrom(c, clock, d, s);
      var after := DiskAfter(c, clock, d, s).chain;
      var last := Last(after).payload;
      && (o == Some(Ends(Finished)) <==> |after| > |d.chain| && last.state.Complete?)
      && (o == Some(Ends(Finished)) ==>
            && s.script.ending.EndCompletes? && last.outputs == s.script.ending.outputs
            && last.delivery == Some(s.script.ending.delivery) && last.diagnostic == None)
      && (o.Some? && o.value.Ends? && o != Some(Ends(Finished)) ==>
            && |after| > |d.chain| && SessionStop(s).Some?
            && (last.state.Cancelled? <==> SessionStop(s).value.cancelled)
            && (last.state.Failed? <==> !SessionStop(s).value.cancelled)
            && (last.state.Cancelled? <==> o == Some(Ends(End.Cancelled)))
            && last.diagnostic == Some(SessionStop(s).value.message)
            && last.outputs == [] && last.delivery == None)
  {
    OpensReady(c, d, s);
    SessionOutcome(c, clock, d, s);
    var state := Last(d.chain).payload.state;
    WholeCloses(s, state);
    var p := Whole(s, state);
    var r := Perform(c, clock, d, p.effects);
    var early, late := WholeSplits(s, state);
    RefusedStays(c, clock, d, early, late);
    hide Ready, Opens, Likely, Whole, Perform, RefusedFrom, RunsThrough, SessionStop, Quiet, Concluding, HasRoom;
    if r.refused.None? {
      LastPerformed(c, clock, d, p.effects);
    } else {
      RefusedKind(c, clock, d, s);
    }
  }

  /** The first revision of a resumption says that the run was left running, if it was. */
  lemma InterruptionIsRecorded(c: Context, clock: nat -> int, d: Disk, s: Setting)
    requires Opens(c, d, s) && HasRoom(d, s) && s.resume
    ensures d.chain != [] && Shaped(s)
    ensures Last(d.chain).payload.state.Running? ==>
      var after := DiskAfter(c, clock, d, s).chain;
      && |after| > |d.chain|
      && var note := after[|d.chain|].payload;
         && note.state.Interrupted? && note.stages == Last(d.chain).payload.stages
         && note.outputs == [] && note.delivery == None
         && note.diagnostic == Some("resume observed a run without a terminal revision")
  {
    OpensReady(c, d, s);
    RefusedKind(c, clock, d, s);
    assert Shaped(s) && s.start.records == Last(d.chain).payload.stages;
    PartIs(s);
    hide Ready, Opens, Likely, HasRoom, PartOf, SessionPart, ValidManifest, Follows;
    var state := Last(d.chain).payload.state;
    if state.Running? {
      var e := Whole(s, state).effects;
      var note := Revise(Step(Interrupting, Interrupted, s.start.records, [], None, Some(INTERRUPTED)));
      assert e == [note] + PartOf(s).effects;
      assert Takes(c, clock, d, note);
      RevisionTimes(c, clock, Apply(c, clock, d, note), e[1..]);
    }
  }

  /** Only the three kinds of revisions are ever refused. */
  lemma RefusedKind(c: Context, clock: nat -> int, d: Disk, s: Setting)
    requires Opens(c, d, s) && HasRoom(d, s)
    ensures d.chain != [] && Shaped(s)
    ensures var r := Perform(c, clock, d, Whole(s, Last(d.chain).payload.state).effects);
      r.refused.Some? ==>
        && r.refused.value.Revise?
        && var kind := r.refused.value.step.kind; kind.Reusing? || kind.Invalidating? || kind.LateCancelling?
  {
    SessionOutcome(c, clock, d, s);
    hide Opens, Whole, Perform, HasRoom, RunsThrough, SessionEnd;
    var o := OutcomeFrom(c, clock, d, s);
    if o.value.Refused? {
      KindsRefused(s, o.value.kind);
    }
  }

  lemma KindsRefused(s: Setting, kind: Kind)
    requires Shaped(s) && RefusedFrom(s, 0, kind)
    ensures kind.Reusing? || kind.Invalidating? || kind.LateCancelling?
  {
    hide MetFrom, FateOf, Balks;
  }

  // ---------------------------------------------------------- the stages of a finished run

  /** The stage keeps its checkpoint: no rerun is asked for, and it and everything that it
      depends on have a fitting one. */
  ghost predicate Keeps(s: Setting, j: nat)
    requires Shaped(s) && j < |s.plan|
  {
    !Asked(s, j) && s.resume && HasFit(s, j) && AncestorsFit(s, j)
  }

  ghost predicate KeptRecord(s: Setting, j: nat, r: Record, files: seq<string>)
    requires Shaped(s) && j < |s.plan|
  {
    && (exists i: nat :: Fitting(s, j, i)
          && r.checkpoint == Some(Reference(s.plan[j].id, s.script.visits[j].compatible[i])))
    && r.compatibility == Some(Decision(true, [])) && r.message == Some("reused compatible stage checkpoint")
    && files == s.start.store[j]
  }

  ghost predicate BuiltRecord(s: Setting, j: nat, r: Record, files: seq<string>)
    requires Shaped(s) && j < |s.plan|
  {
    var a := s.script.visits[j].attempt;
    && a.Publishes? && a.digest !in s.start.store[j] && a.next.Completes?
    && r.checkpoint == Some(Reference(s.plan[j].id, a.digest)) && files == s.start.store[j] + [a.digest]
    && r.compatibility == None && r.message == a.next.cacheMessage
  }

  /** What was excluded still is, and a rerun that is asked for excludes each checkpoint that can
      be read. */
  ghost predicate Excludes(s: Setting, j: nat, r: Record)
    requires Shaped(s) && j < |s.plan|
  {
    forall digest :: digest in r.excluded <==>
      || digest in s.start.records[j].excluded
      || (Asked(s, j) && digest in s.start.store[j] && digest !in s.script.damaged)
  }

  ghost predicate DoneRecord(s: Setting, j: nat, r: Record)
    requires Shaped(s) && j < |s.plan|
  {
    r.stageId == s.plan[j].id && r.state.Complete? && !r.rerunRequired && Excludes(s, j, r)
  }

  lemma SettledMeans(s: Setting, j: nat)
    requires Ready(s) && j < |s.plan| && GoesOn(s, j)
    ensures DoneRecord(s, j, Settled(s, j))
    ensures Keeps(s, j) ==> KeptRecord(s, j, Settled(s, j), SettledFiles(s, j))
    ensures !Keeps(s, j) ==> BuiltRecord(s, j, Settled(s, j), SettledFiles(s, j))
    ensures Keeps(s, j) <==> FateOf(s, j).Kept?
  {
    FatesExactly(s, j);
    SettledIsDone(s, j);
    if Keeps(s, j) {
      KeepsIsKept(s, j);
    }
    hide Ready, Asked, AncestorsFit, FirstFit, FateOf, Base, DoneRecord;
  }

  lemma SettledIsDone(s: Setting, j: nat)
    requires Ready(s) && j < |s.plan| && GoesOn(s, j)
    ensures DoneRecord(s, j, Settled(s, j))
  {
    AskedIsForced(s, j);
    SettledId(s, j);
    MergeHas(s.start.records[j].excluded, Visible(s.start.store[j], s.script.damaged));
    if FateOf(s, j).Kept? {
      KeptRerun(s, j);
    }
    hide Ready, Asked, FateOf, Forced, Visible, Merge;
  }

  lemma KeepsIsKept(s: Setting, j: nat)
    requires Ready(s) && j < |s.plan| && Keeps(s, j)
    ensures FateOf(s, j).Kept?
  {
    FatesExactly(s, j);
    var i: nat :| Fitting(s, j, i);
    FitIsCandidate(s, j, i);
    assert FateOf(s, j) == Kept(s.script.visits[j].compatible[i]);
  }

  lemma KeptRerun(s: Setting, j: nat)
    requires Ready(s) && j < |s.plan| && FateOf(s, j).Kept?
    ensures !s.start.records[j].rerunRequired && !IsForced(s, j)
  {
    NoneIsMarked(s, j);
    if s.start.records[j].rerunRequired {
      DueIsForced(s, j);
    }
  }

  /** In a session that completes the run, a stage keeps the newest fitting checkpoint exactly
      if no rerun is asked for and it and everything that it depends on have one; any other
      stage newly runs, is validated and completes with a checkpoint that was not there. */
  lemma KeptOrBuilt(c: Context, clock: nat -> int, d: Disk, s: Setting, j: nat)
    requires Opens(c, d, s)
    requires d.chain != [] && Shaped(s) && OutcomeFrom(c, clock, d, s) == Some(Ends(Finished)) && j < |s.plan|
    ensures var after := DiskAfter(c, clock, d, s);
      var stages := Last(after.chain).payload.stages;
      && |stages| == |after.store| == |s.plan| && DoneRecord(s, j, stages[j])
      && if Keeps(s, j) then KeptRecord(s, j, stages[j], after.store[j])
         else
           && BuiltRecord(s, j, stages[j], after.store[j])
           && exists m :: |d.chain| <= m < |after.chain| && BuiltAt(after.chain, m, j)
  {
    assert s.start.records == Last(d.chain).payload.stages;
    FinishedTells(c, clock, d, s);
    FinishedLeaves(c, clock, d, s);
    AllGoOnAt(s, j);
    SettledMeans(s, j);
    hide Opens, Reaches, DiskAfter, OutcomeFrom, Whole, Revised, Rebuilt, RunsThrough, Forced, Struck, Ready, GoesOn;
    hide Keeps, KeptRecord, BuiltRecord, DoneRecord, FateOf, Settled, SettledFiles, BuiltAt, Tells;
    if !Keeps(s, j) {
      var h := Revised(Whole(s, Last(d.chain).payload.state).effects);
      TellsBuilt(d, DiskAfter(c, clock, d, s), h, 0, j, Settled(s, j));
    }
  }

  // --------------------------------------------------------- the stages of a stopped run

  /** The record of the stage at which a build stops. */
  function HaltedRecord(r: Record, a: Attempt, files: seq<string>, stop: Stop): Record {
    if a.Publishes? && a.digest !in files && a.next.Completes? then
      CompletedRecord(r, Reference(r.stageId, a.digest), a.next.cacheMessage)
    else
      StoppedRecord(if RunJudgement.Late(a, files) then r.(rerunRequired := false) else r, stop.cancelled, stop.message)
  }

  lemma BuildHalts(desk: Desk, k: nat, a: Attempt)
    requires k < |desk.records| && Fits(desk) && AttemptStop(a, desk.store[k]).Some?
    ensures var p := Build(desk, k, a).desk;
      && |p.records| == |p.store| == |desk.records|
      && p.records[k] == HaltedRecord(desk.records[k], a, desk.store[k], AttemptStop(a, desk.store[k]).value)
      && (forall j :: 0 <= j < |desk.records| && j != k ==>
            p.records[j] == desk.records[j] && p.store[j] == desk.store[j])
      && p.store[k] == desk.store[k]
           + if a.Publishes? && a.digest !in desk.store[k] then [a.digest] else []
  {
  }

  /** The stage is the first that stops the session. */
  ghost predicate StopsAt(s: Setting, k: nat)
    requires Shaped(s)
  {
    k < |s.plan| && VisitStop(s, k).Some? && forall m :: 0 <= m < k ==> GoesOn(s, m)
  }

  /** What a stop at stage `k` leaves: stages before are settled, later ones are as they were
      expected, and the stage itself is halted, or untouched where its visit never began. */
  ghost predicate Halted(s: Setting, k: nat, desk: Desk)
    requires Shaped(s) && k < |s.plan| && VisitStop(s, k).Some?
  {
    var visit := s.script.visits[k];
    var n := if visit.cancelledBefore then k else k + 1;
    && |desk.records| == |desk.store| == |s.plan|
    && (forall j :: 0 <= j < k ==>
          GoesOn(s, j) && desk.records[j] == Settled(s, j) && desk.store[j] == SettledFiles(s, j))
    && (forall j :: n <= j < |s.plan| ==> desk.records[j] == Expected(s, n, j) && desk.store[j] == s.start.store[j])
    && (!visit.cancelledBefore ==>
          && desk.records[k] == HaltedRecord(Base(s, k), visit.attempt, s.start.store[k], VisitStop(s, k).value)
          && desk.store[k] == s.start.store[k]
               + (if visit.attempt.Publishes? && visit.attempt.digest !in s.start.store[k]
                  then [visit.attempt.digest] else []))
  }

  lemma SameHalt(s: Setting, k: nat, r: Record, a: Attempt, files: seq<string>, stop: Stop)
    requires Ready(s) && k < |s.plan| && r.stageId == s.plan[k].id && r.excluded == Base(s, k).excluded
    requires r.rerunRequired == IsForced(s, k)
    ensures HaltedRecord(r, a, files, stop) == HaltedRecord(Base(s, k), a, files, stop)
  {
    ExpectedOf(s, k, k);
    BaseOf(s, k);
    hide Ready, Forced, Base;
  }

  lemma BaseOf(s: Setting, k: nat)
    requires Ready(s) && k < |s.plan|
    ensures Base(s, k).stageId == s.plan[k].id && Base(s, k).rerunRequired == IsForced(s, k)
  {
    AlignedMeans(s.plan, s.start.records);
    if s.start.records[k].rerunRequired {
      DueIsForced(s, k);
    }
    hide OrderlyDesk, ValidPlan, Forced, Visible, Merge;
  }

  lemma TurnHalts(s: Setting, k: nat, desk: Desk, invalidated: set<string>)
    requires Ready(s) && k < |s.plan| && Entering(s, k, desk, invalidated) && VisitStop(s, k).Some?
    ensures Fits(desk) && |desk.records| == |s.plan|
    ensures Halted(s, k, TurnOf(s, k, desk, invalidated).part.desk)
  {
    EnteringMeans(s, k, desk, invalidated);
    if !s.script.visits[k].cancelledBefore {
      if FateOf(s, k).Root? {
        RootHalts(s, k, desk, invalidated);
      } else {
        BuildHaltsAt(s, k, desk, invalidated);
      }
    } else {
      hide Ready, Expected, Settled, SettledFiles, GoesOn, FateOf, Struck;
    }
  }

  lemma BuildHaltsAt(s: Setting, k: nat, desk: Desk, invalidated: set<string>)
    requires Ready(s) && k < |s.plan| && Entering(s, k, desk, invalidated) && VisitStop(s, k).Some?
    requires !s.script.visits[k].cancelledBefore && !FateOf(s, k).Root?
    ensures Fits(desk) && |desk.records| == |s.plan|
    ensures Halted(s, k, TurnOf(s, k, desk, invalidated).part.desk)
  {
    EnteringMeans(s, k, desk, invalidated);
    BuildEnters(s, k, desk, invalidated);
    SameStruck(s, k);
    ExpectedOf(s, k, k);
    var a := s.script.visits[k].attempt;
    BuildHalts(desk, k, a);
    SameHalt(s, k, desk.records[k], a, desk.store[k], VisitStop(s, k).value);
    hide Ready, Expected, Settled, SettledFiles, GoesOn, FateOf, Struck, Build, HaltedRecord, Base;
    hide AttemptStop, Visited;
  }

  lemma RootHalts(s: Setting, k: nat, desk: Desk, invalidated: set<string>)
    requires Ready(s) && k < |s.plan| && Entering(s, k, desk, invalidated) && VisitStop(s, k).Some?
    requires !s.script.visits[k].cancelledBefore && FateOf(s, k).Root?
    ensures Fits(desk) && |desk.records| == |s.plan|
    ensures Halted(s, k, TurnOf(s, k, desk, invalidated).part.desk)
  {
    EnteringMeans(s, k, desk, invalidated);
    RootEnters(s, k, desk, invalidated);
    ClearedIsExpected(s, k, desk, invalidated);
    ExpectedOf(s, k, k);
    var visit := s.script.visits[k];
    var f := FrontierOf(s.plan, {s.plan[k].id});
    var cleared := Invalidation(f, k, visit.otherwise, desk, 0);
    InvalidationResult(f, k, visit.otherwise, desk, 0);
    BuildHalts(cleared.desk, k, visit.attempt);
    RootStays(s, k, desk, invalidated);
    SameHalt(s, k, cleared.desk.records[k], visit.attempt, desk.store[k], VisitStop(s, k).value);
    hide Ready, Expected, Settled, SettledFiles, GoesOn, FateOf, Struck, Build, HaltedRecord, Base;
    hide AttemptStop, Visited;
    hide Invalidation, FrontierOf;
  }

  lemma RootStays(s: Setting, k: nat, desk: Desk, invalidated: set<string>)
    requires Ready(s) && k < |s.plan| && Entering(s, k, desk, invalidated) && FateOf(s, k).Root?
    ensures |desk.records| == |s.plan|
    ensures var f := FrontierOf(s.plan, {s.plan[k].id});
      Invalidation(f, k, s.script.visits[k].otherwise, desk, 0).desk.records[k].rerunRequired == IsForced(s, k)
  {
    EnteringMeans(s, k, desk, invalidated);
    ExpectedOf(s, k, k);
    var f := FrontierOf(s.plan, {s.plan[k].id});
    InvalidationResult(f, k, s.script.visits[k].otherwise, desk, 0);
    hide Ready, Expected, FateOf, Invalidation, FrontierOf, Forced;
  }

  lemma {:induction false} OnwardHalts(s: Setting, k: nat, n: nat, desk: Desk, invalidated: set<string>)
    requires Shaped(s) && |desk.records| == |s.plan| && Fits(desk)
    requires Ready(s) && k <= n < |s.plan| && Entering(s, k, desk, invalidated) && StopsAt(s, n)
    ensures Halted(s, n, Onward(s, k, desk, invalidated).desk)
    decreases n - k
  {
    hide Ready, TurnOf, Onward, GoesOn, Entering, VisitStop, Records, Halted;
    OnwardUnfolds(s, k, desk, invalidated);
    TurnEnters(s, k, desk, invalidated);
    var t := TurnOf(s, k, desk, invalidated);
    if k == n {
      TurnHalts(s, k, desk, invalidated);
      TurnEnds(s, k, desk, invalidated);
    } else {
      OnwardHalts(s, k + 1, n, t.part.desk, t.invalidated);
    }
  }

  lemma PartHalts(s: Setting, n: nat)
    requires Ready(s) && n < |s.plan| && StopsAt(s, n)
    ensures Halted(s, n, PartOf(s).desk)
  {
    assert Shaped(s);
    MarkedEnters(s);
    hide Ready, Onward, MarkedPart, PartOf, Entering, Halted, Ended, VisitStop, StopsAt;
    PartUnfolds(s);
    var marked := MarkedPart(s);
    OnwardHalts(s, 0, n, marked.desk, {});
    EndedKeeps(Onward(s, 0, marked.desk, {}).desk, s.script.ending);
  }

  /** The record of a stage that the session, having visited `n` stages, has not come to. */
  ghost predicate WaitingRecord(s: Setting, n: nat, j: nat, r: Record)
    requires Shaped(s) && n <= |s.plan| && j < |s.plan|
  {
    if exists m :: 0 <= m < n && FateOf(s, m) == Root && Reaches(s.plan, j, m) then
      && r.stageId == s.plan[j].id && r.rerunRequired == Asked(s, j) && Excludes(s, j, r)
      && r.state.Invalidated? && r.checkpoint == None
      && r.compatibility == Some(Decision(false, [
           Reason(DependencyChanged, "a declared dependency was invalidated in this resume")]))
      && r.message == Some("checkpoint evidence is incompatible and will be rebuilt")
    else if Asked(s, j) then
      && r.stageId == s.plan[j].id && r.rerunRequired && Excludes(s, j, r)
      && r.state.Invalidated? && r.checkpoint == None
      && r.compatibility == Some(Decision(false, [
           Reason(ExplicitRerun, "explicit stage rerun or dependent frontier")]))
      && r.message == Some("explicit rerun bypasses checkpoint and cache reuse")
    else r == s.start.records[j]
  }

  /** The record of the stage at which the session stops: failed or cancelled, unless its
      completion had been recorded already. */
  ghost predicate StoppedStage(s: Setting, k: nat, r: Record, files: seq<string>)
    requires Shaped(s) && k < |s.plan| && VisitStop(s, k).Some?
  {
    var a, stop := s.script.visits[k].attempt, VisitStop(s, k).value;
    var published := a.Publishes? && a.digest !in s.start.store[k];
    && r.stageId == s.plan[k].id && Excludes(s, k, r) && r.compatibility == None
    && files == s.start.store[k] + (if published then [a.digest] else [])
    && if published && a.next.Completes? then
         && r.state.Complete? && r.checkpoint == Some(Reference(s.plan[k].id, a.digest))
         && !r.rerunRequired && r.message == a.next.cacheMessage
       else
         && (r.state.Cancelled? <==> stop.cancelled) && (r.state.Failed? <==> !stop.cancelled)
         && r.checkpoint == None && r.message == Some(stop.message)
         && r.rerunRequired == (Asked(s, k) && !(published && a.next.CancelledLate?))
  }

  lemma BaseExcludes(s: Setting, j: nat)
    requires Ready(s) && j < |s.plan|
    ensures Excludes(s, j, Base(s, j)) && Base(s, j).stageId == s.plan[j].id
    ensures Base(s, j).rerunRequired == Asked(s, j)
  {
    AskedIsForced(s, j);
    BaseOf(s, j);
    MergeHas(s.start.records[j].excluded, Visible(s.start.store[j], s.script.damaged));
    hide Ready, Asked, Forced, Visible, Merge;
  }

  lemma ExpectedWaits(s: Setting, n: nat, j: nat)
    requires Ready(s) && n <= |s.plan| && j < |s.plan|
    ensures WaitingRecord(s, n, j, Expected(s, n, j))
  {
    AskedIsForced(s, j);
    BaseExcludes(s, j);
    hide Ready, Asked, Forced, Visible, Merge, FateOf, Reaches;
  }

  lemma HaltedIsStopped(s: Setting, k: nat)
    requires Ready(s) && k < |s.plan| && VisitStop(s, k).Some?
    ensures var a := s.script.visits[k].attempt;
      var files := s.start.store[k] + if a.Publishes? && a.digest !in s.start.store[k] then [a.digest] else [];
      StoppedStage(s, k, HaltedRecord(Base(s, k), a, s.start.store[k], VisitStop(s, k).value), files)
  {
    BaseExcludes(s, k);
    hide Ready, Asked, Base, VisitStop;
  }

  /** What a session leaves that is stopped at a stage and not refused: the stages before it
      are kept or built, the stage is recorded as stopped, and the others wait. */
  lemma StoppedLeaves(c: Context, clock: nat -> int, d: Disk, s: Setting, k: nat)
    requires Opens(c, d, s) && d.chain != [] && Shaped(s) && StopsAt(s, k)
    requires OutcomeFrom(c, clock, d, s).Some? && OutcomeFrom(c, clock, d, s).value.Ends?
    ensures var after := DiskAfter(c, clock, d, s);
      var stages := Last(after.chain).payload.stages;
      var visit := s.script.visits[k];
      && |stages| == |after.store| == |s.plan|
      && (forall j :: 0 <= j < k ==>
            && DoneRecord(s, j, stages[j])
            && if Keeps(s, j) then KeptRecord(s, j, stages[j], after.store[j])
               else BuiltRecord(s, j, stages[j], after.store[j]))
      && (!visit.cancelledBefore ==> StoppedStage(s, k, stages[k], after.store[k]))
      && var n := if visit.cancelledBefore then k else k + 1;
         forall j :: n <= j < |s.plan| ==> WaitingRecord(s, n, j, stages[j]) && after.store[j] == s.start.store[j]
  {
    EndedHalts(c, clock, d, s, k);
    OpensReady(c, d, s);
    HaltedIsStopped(s, k);
    var n := if s.script.visits[k].cancelledBefore then k else k + 1;
    forall j | n <= j < |s.plan| ensures WaitingRecord(s, n, j, Expected(s, n, j)) {
      ExpectedWaits(s, n, j);
    }
    forall j | 0 <= j < k && GoesOn(s, j)
      ensures DoneRecord(s, j, Settled(s, j))
      ensures Keeps(s, j) ==> KeptRecord(s, j, Settled(s, j), SettledFiles(s, j))
      ensures !Keeps(s, j) ==> BuiltRecord(s, j, Settled(s, j), SettledFiles(s, j))
    {
      SettledMeans(s, j);
    }
    hide Ready, Opens, OutcomeFrom, DiskAfter, Keeps, KeptRecord, BuiltRecord, DoneRecord, WaitingRecord, StoppedStage;
    hide Settled, SettledFiles, GoesOn, Expected, HaltedRecord, Base, VisitStop;
  }

  lemma EndedHalts(c: Context, clock: nat -> int, d: Disk, s: Setting, k: nat)
    requires Opens(c, d, s) && d.chain != [] && Shaped(s) && StopsAt(s, k)
    requires OutcomeFrom(c, clock, d, s).Some? && OutcomeFrom(c, clock, d, s).value.Ends?
    ensures var after := DiskAfter(c, clock, d, s);
      Halted(s, k, Desk(Last(after.chain).payload.stages, after.store))
  {
    OpensReady(c, d, s);
    WholeIsProper(c, d, s);
    var state := Last(d.chain).payload.state;
    WholeIsJudged(c, s, state);
    PartHalts(s, k);
    hide Ready, Opens, Likely, RefusedFrom, Judge, Perform, Proper, PartOf, Whole, Halted, OrderlyDesk;
    PerformedAll(c, clock, d, Whole(s, state).effects);
  }

  // --------------------------------------------------------------------------- times

  /** Revision `i` has the clock's time, unless the clock has gone back. */
  predicate Timely(clock: nat -> int, chain: seq<Manifest>, i: nat)
    requires 0 < i < |chain|
  {
    && (clock(i) >= chain[i - 1].payload.updatedAt ==> chain[i].payload.updatedAt == clock(i))
    && (clock(i) < chain[i - 1].payload.updatedAt ==> chain[i].payload.updatedAt == chain[i - 1].payload.updatedAt)
  }

  lemma TimelyStep(c: Context, clock: nat -> int, d: Disk, e: Effect)
    requires d.chain != [] && Takes(c, clock, d, e)
    ensures var next := Apply(c, clock, d, e).chain;
      && d.chain <= next
      && forall i :: |d.chain| <= i < |next| ==> Timely(clock, next, i)
  {
    hide ValidManifest, Follows;
  }

  /** Every revision of a session has the clock's time, or the last one's if that is later. */
  lemma {:induction false} RevisionTimes(c: Context, clock: nat -> int, d: Disk, effects: seq<Effect>)
    requires d.chain != []
    ensures var after := Perform(c, clock, d, effects).disk.chain;
      && d.chain <= after
      && forall i :: |d.chain| <= i < |after| ==> Timely(clock, after, i)
    decreases |effects|
  {
    hide Takes, Apply;
    if effects != [] && Takes(c, clock, d, effects[0]) {
      var next := Apply(c, clock, d, effects[0]);
      TimelyStep(c, clock, d, effects[0]);
      RevisionTimes(c, clock, next, effects[1..]);
      var after := Perform(c, clock, next, effects[1..]).disk.chain;
      forall i | |d.chain| <= i < |after| ensures Timely(clock, after, i) {
        if i < |next.chain| {
          assert after[i] == next.chain[i] && after[i - 1] == next.chain[i - 1];
          assert Timely(clock, next.chain, i);
        }
      }
    }
  }
}
