/** Run manifests of src/state_v3.rs: an append-only, hash-linked chain of revisions, and what
    its lifecycle rules guarantee over whole runs. */
module RunManifests {
  import opened Distinctness
  import opened Widths
  import opened Wrappers

  datatype RunState = Running | Interrupted | Failed | Cancelled | Complete

  datatype StageState =
    Pending | Running | Validating | Complete | Failed | Cancelled | Invalidated | Skipped

  datatype ReasonCode =
    | ExplicitRerun | MissingCheckpoint | UnsupportedCheckpointSchema | CorruptCheckpoint
    | StagePlanChanged | ProviderLockChanged | ExecutionPolicyChanged | InputChanged
    | DependencyChanged | ExecutionReportMissing | ExecutionReportInvalid | OutputMissing
    | OutputChanged | ValidationMissing | ValidationFailed | ValidationChanged

  datatype Reason = Reason(code: ReasonCode, detail: string)

  /** Whether a checkpoint may be reused, and if not, why. */
  datatype Decision = Decision(reusable: bool, reasons: seq<Reason>)

  /** A checkpoint, by its stage and its digest; the path follows from both. */
  datatype Reference = Reference(stageId: string, sha256: string)

  datatype Record = Record(
    rerunRequired: bool, excluded: seq<string>,
    stageId: string, state: StageState,
    checkpoint: Option<Reference>, compatibility: Option<Decision>, message: Option<string>)

  datatype Output = Output(id: string, sha256: string, fileCount: nat, byteCount: nat)

  datatype Payload = Payload(
    runId: string, plan: string,
    revision: nat, previous: Option<string>,
    createdAt: int, updatedAt: int,
    state: RunState, stages: seq<Record>,
    outputs: seq<Output>, delivery: Option<string>, diagnostic: Option<string>)

  datatype Manifest = Manifest(digest: string, payload: Payload)

  /** The canonical digest, and the texts that may be shown to an operator. */
  datatype Context = Context(hash: Payload -> string, printable: string -> bool)

  // ----------------------------------------------------------------------- validity

  predicate ValidDecision(c: Context, d: Decision) {
    && (d.reusable <==> d.reasons == [])
    && (forall i :: 0 <= i < |d.reasons| ==> c.printable(d.reasons[i].detail))
    && Distinct(d.reasons)
  }

  /** A stage claims a checkpoint exactly when it is complete, never an excluded one, and
      explains itself exactly when it is invalidated. */
  predicate ValidRecord(c: Context, r: Record) {
    && Distinct(r.excluded)
    && (r.state.Complete? ==> !r.rerunRequired)
    && (r.checkpoint.Some? <==> r.state.Complete?)
    && (r.checkpoint.Some? ==> r.checkpoint.value.sha256 !in r.excluded && r.checkpoint.value.stageId == r.stageId)
    && (r.compatibility.Some? ==>
          && ValidDecision(c, r.compatibility.value)
          && (if r.compatibility.value.reusable then r.state.Complete? else r.state.Invalidated?))
    && (r.state.Invalidated? ==> r.compatibility.Some?)
    && (r.message.Some? ==> c.printable(r.message.value))
  }

  function StageIds(stages: seq<Record>): seq<string> {
    seq(|stages|, i requires 0 <= i < |stages| => stages[i].stageId)
  }

  function OutputIds(outputs: seq<Output>): seq<string> {
    seq(|outputs|, i requires 0 <= i < |outputs| => outputs[i].id)
  }

  predicate ValidStages(c: Context, stages: seq<Record>) {
    && stages != []
    && (forall i :: 0 <= i < |stages| ==> ValidRecord(c, stages[i]))
    && Distinct(StageIds(stages))
  }

  predicate AllInState(stages: seq<Record>, state: StageState) {
    forall i :: 0 <= i < |stages| ==> stages[i].state == state
  }

  predicate ValidOutputs(outputs: seq<Output>) {
    && (forall i :: 0 <= i < |outputs| ==> outputs[i].fileCount > 0 && outputs[i].byteCount > 0)
    && Distinct(OutputIds(outputs))
  }

  predicate ValidPayload(c: Context, p: Payload) {
    && (p.delivery.Some? ==> p.state.Complete?)
    && 1 <= p.revision < U64_LIMIT
    && (p.revision == 1 <==> p.previous.None?)
    && p.createdAt <= p.updatedAt
    && ValidStages(c, p.stages)
    && (p.revision == 1 ==> p.state.Running? && AllInState(p.stages, StageState.Pending) && p.diagnostic.None?)
    && ValidOutputs(p.outputs)
    && (if p.state.Complete? then p.outputs != [] && AllInState(p.stages, StageState.Complete) else p.outputs == [])
    && (p.diagnostic.Some? ==> c.printable(p.diagnostic.value))
  }

  predicate ValidManifest(c: Context, m: Manifest) {
    ValidPayload(c, m.payload) && m.digest == c.hash(m.payload)
  }

  // --------------------------------------------------------------------- transitions

  /** `valid_run_transition`. */
  predicate RunAllowed(before: RunState, after: RunState) {
    before.Running? || after.Running? || after.Cancelled?
  }

  /** The table of `validate_stage_successor`. */
  predicate StageAllowed(before: StageState, after: StageState) {
    match before
    case Pending => after.Running? || after.Failed? || after.Cancelled? || after.Invalidated?
    case Running =>
      after.Validating? || after.Complete? || after.Failed? || after.Cancelled? || after.Invalidated?
    case Validating => after.Complete? || after.Failed? || after.Cancelled? || after.Invalidated?
    case Complete => after.Invalidated?
    case Failed => after.Complete? || after.Cancelled? || after.Invalidated?
    case Cancelled => after.Complete? || after.Cancelled? || after.Invalidated?
    case Invalidated => after.Running? || after.Complete? || after.Failed? || after.Cancelled?
    case Skipped => after.Invalidated?
  }

  /** `validate_stage_successor`, of a record that changes. */
  predicate StageStep(before: Record, after: Record) {
    && (forall i :: 0 <= i < |before.excluded| ==> before.excluded[i] in after.excluded)
    && (before.rerunRequired && !after.rerunRequired ==> after.state.Complete?)
    && if before.state == after.state then
         || (before.state.Invalidated? && after.rerunRequired)
         || (&& before.state.Complete? && before.checkpoint == after.checkpoint
             && after.compatibility.Some? && after.compatibility.value.reusable)
       else StageAllowed(before.state, after.state)
  }

  /** When a stage may enter each state: pending and skipped never, running and validating only
      in their turn, failed only from work that is under way or waits, complete from anything
      that has been worked on, cancelled from all but complete ones, invalidated from any. */
  lemma EntryRules(before: Record, after: Record)
    requires before.state != after.state
    requires forall i :: 0 <= i < |before.excluded| ==> before.excluded[i] in after.excluded
    requires before.rerunRequired && !after.rerunRequired ==> after.state.Complete?
    ensures after.state.Pending? || after.state.Skipped? ==> !StageStep(before, after)
    ensures after.state.Running? ==> (StageStep(before, after) <==> before.state in {Pending, Invalidated})
    ensures after.state.Validating? ==> (StageStep(before, after) <==> before.state.Running?)
    ensures after.state.Failed? ==>
      (StageStep(before, after) <==> before.state in {Pending, StageState.Running, Validating, Invalidated})
    ensures after.state.Complete? ==> (StageStep(before, after) <==> before.state !in {Pending, Skipped})
    ensures after.state.Cancelled? ==>
      (StageStep(before, after) <==> before.state !in {StageState.Complete, Skipped})
    ensures after.state.Invalidated? ==> StageStep(before, after)
  {
  }

  /** A rerun request marks a whole frontier at once. */
  predicate IsRerunMark(r: Record) {
    r.rerunRequired && r.state.Invalidated?
  }

  predicate SameAuthority(before: Payload, after: Payload) {
    && after.runId == before.runId && after.plan == before.plan && after.createdAt == before.createdAt
    && StageIds(after.stages) == StageIds(before.stages)
  }

  /** One stage record changes at a time, unless every change marks a requested rerun. */
  predicate StagesStep(before: seq<Record>, after: seq<Record>)
    requires |before| == |after|
  {
    && (forall i :: 0 <= i < |before| && before[i] != after[i] ==> StageStep(before[i], after[i]))
    && (|| (forall i, j :: 0 <= i < j < |before| ==> before[i] == after[i] || before[j] == after[j])
        || (forall i :: 0 <= i < |before| && before[i] != after[i] ==> IsRerunMark(after[i])))
  }

  lemma SameIdsSameLength(before: seq<Record>, after: seq<Record>)
    requires StageIds(before) == StageIds(after)
    ensures |before| == |after|
    ensures forall i :: 0 <= i < |before| ==> before[i].stageId == after[i].stageId
  {
    assert |StageIds(before)| == |before| && |StageIds(after)| == |after|;
    forall i | 0 <= i < |before| ensures before[i].stageId == after[i].stageId {
      assert StageIds(before)[i] == StageIds(after)[i];
    }
  }

  /** What makes a revision follow another. */
  predicate Follows(before: Manifest, after: Manifest) {
    && after.payload.revision == before.payload.revision + 1
    && after.payload.previous == Some(before.digest)
    && SameAuthority(before.payload, after.payload)
    && RunAllowed(before.payload.state, after.payload.state)
    && (SameIdsSameLength(before.payload.stages, after.payload.stages);
        StagesStep(before.payload.stages, after.payload.stages))
    && before.payload.updatedAt <= after.payload.updatedAt
  }

  /** `validate_manifest_successor`, of two revisions that validate: the loop over stage
      pairs counts changes, saturating at 255. */
  method CheckSuccessor(c: Context, before: Manifest, after: Manifest) returns (ok: bool)
    requires ValidManifest(c, before) && ValidManifest(c, after)
    ensures ok <==> Follows(before, after)
  {
    hide ValidManifest, StageStep, RunAllowed, IsRerunMark;
    var p, n := before.payload, after.payload;
    if n.revision != p.revision + 1 || n.previous != Some(before.digest) {
      return false;
    }
    if n.runId != p.runId || n.plan != p.plan || n.createdAt != p.createdAt {
      return false;
    }
    if StageIds(n.stages) != StageIds(p.stages) {
      return false;
    }
    SameIdsSameLength(p.stages, n.stages);
    if !RunAllowed(p.state, n.state) {
      return false;
    }
    var changed := 0;
    for i := 0 to |p.stages|
      invariant 0 <= changed <= 255
      invariant changed == 0 <==> forall k :: 0 <= k < i ==> p.stages[k] == n.stages[k]
      invariant changed <= 1 <==>
        forall j, k :: 0 <= j < k < i ==> p.stages[j] == n.stages[j] || p.stages[k] == n.stages[k]
      invariant forall k :: 0 <= k < i && p.stages[k] != n.stages[k] ==> StageStep(p.stages[k], n.stages[k])
    {
      if p.stages[i] != n.stages[i] {
        changed := if changed < 255 then changed + 1 else 255;
        if !StageStep(p.stages[i], n.stages[i]) {
          return false;
        }
      }
    }
    var explicitFrontier := forall i :: 0 <= i < |p.stages| && p.stages[i] != n.stages[i] ==> IsRerunMark(n.stages[i]);
    if changed > 1 && !explicitFrontier {
      return false;
    }
    return p.updatedAt <= n.updatedAt;
  }

  // ------------------------------------------------------------------------- chains

  ghost predicate ValidChain(c: Context, chain: seq<Manifest>) {
    && (forall i :: 0 <= i < |chain| ==> ValidManifest(c, chain[i]) && chain[i].payload.revision == i + 1)
    && (forall i :: 0 < i < |chain| ==> Follows(chain[i - 1], chain[i]))
  }

  lemma ChainOneMore(c: Context, chain: seq<Manifest>, next: Manifest)
    requires ValidChain(c, chain)
    ensures ValidChain(c, chain + [next]) <==>
      && ValidManifest(c, next)
      && if chain == [] then next.payload.revision == 1 else Follows(chain[|chain| - 1], next)
  {
    hide ValidManifest;
    var longer := chain + [next];
    assert longer[|chain|] == next;
    if chain != [] {
      assert longer[|chain| - 1] == chain[|chain| - 1];
    }
    if ValidChain(c, longer) && chain != [] {
      assert Follows(longer[|chain| - 1], longer[|chain|]);
    }
  }

  lemma ChainPrefix(c: Context, chain: seq<Manifest>, n: nat)
    requires ValidChain(c, chain) && n <= |chain|
    ensures ValidChain(c, chain[..n])
  {
    hide ValidManifest, Follows;
  }

  /** Over a whole run, identity, plan, creation time and stage order never change, and
      time never runs backwards. */
  lemma {:induction false} AuthorityIsImmutable(c: Context, chain: seq<Manifest>, i: nat, j: nat)
    requires ValidChain(c, chain) && i <= j < |chain|
    ensures SameAuthority(chain[i].payload, chain[j].payload)
    ensures chain[i].payload.updatedAt <= chain[j].payload.updatedAt
    decreases j
  {
    hide ValidManifest;
    if i < j {
      AuthorityIsImmutable(c, chain, i, j - 1);
      assert Follows(chain[j - 1], chain[j]);
    }
  }

  /** The head of a chain commits to all of it: two chains with the same last digest are
      the same chain, or they exhibit a collision of the digest. */
  lemma {:induction false} HeadDeterminesHistory(c: Context, left: seq<Manifest>, right: seq<Manifest>)
    requires ValidChain(c, left) && ValidChain(c, right) && left != [] && right != []
    requires left[|left| - 1].digest == right[|right| - 1].digest
    ensures left == right || exists i, j ::
      && 0 <= i < |left| && 0 <= j < |right|
      && left[i].payload != right[j].payload && c.hash(left[i].payload) == c.hash(right[j].payload)
    decreases |left|
  {
    hide ValidPayload, StagesStep;
    var l, r := |left| - 1, |right| - 1;
    assert ValidManifest(c, left[l]) && ValidManifest(c, right[r]);
    if left[l].payload == right[r].payload {
      assert left == left[..l] + [left[l]] && right == right[..r] + [right[r]];
      if l > 0 {
        assert Follows(left[l - 1], left[l]) && Follows(right[r - 1], right[r]);
        ChainPrefix(c, left, l);
        ChainPrefix(c, right, r);
        HeadDeterminesHistory(c, left[..l], right[..r]);
        if left[..l] != right[..r] {
          var i, j :| 0 <= i < l && 0 <= j < r
            && left[..l][i].payload != right[..r][j].payload
            && c.hash(left[..l][i].payload) == c.hash(right[..r][j].payload);
          assert left[i] == left[..l][i] && right[j] == right[..r][j];
        }
      }
    }
  }

  /** A run is interrupted, fails or completes only from running; otherwise it runs again or
      is cancelled. */
  lemma RunsEndFromRunning(c: Context, chain: seq<Manifest>, i: nat)
    requires ValidChain(c, chain) && 0 < i < |chain|
    ensures chain[i].payload.state !in {RunState.Running, RunState.Cancelled} ==>
      chain[i - 1].payload.state.Running?
  {
    hide ValidManifest, StagesStep, SameAuthority;
    assert Follows(chain[i - 1], chain[i]);
  }

  // ------------------------------------------------------------------ lives of stages

  /** One stage through the revisions of a chain. */
  function History(chain: seq<Manifest>, s: nat): seq<Record>
    requires forall i :: 0 <= i < |chain| ==> s < |chain[i].payload.stages|
  {
    seq(|chain|, i requires 0 <= i < |chain| => chain[i].payload.stages[s])
  }

  ghost predicate Life(c: Context, h: seq<Record>) {
    && (h != [] ==> h[0].state.Pending?)
    && (forall i :: 0 <= i < |h| ==> ValidRecord(c, h[i]))
    && (forall i :: 0 < i < |h| ==> h[i - 1] == h[i] || StageStep(h[i - 1], h[i]))
  }

  lemma {:induction false} StagesAligned(c: Context, chain: seq<Manifest>, s: nat)
    requires ValidChain(c, chain) && chain != [] && s < |chain[0].payload.stages|
    ensures forall i :: 0 <= i < |chain| ==> s < |chain[i].payload.stages|
  {
    hide ValidManifest, Follows;
    forall i | 0 <= i < |chain| ensures s < |chain[i].payload.stages| {
      AuthorityIsImmutable(c, chain, 0, i);
      SameIdsSameLength(chain[0].payload.stages, chain[i].payload.stages);
    }
  }

  /** Every stage of a valid chain lives by the stage rules, from pending on. */
  lemma ChainLives(c: Context, chain: seq<Manifest>, s: nat)
    requires ValidChain(c, chain) && chain != [] && s < |chain[0].payload.stages|
    ensures forall i :: 0 <= i < |chain| ==> s < |chain[i].payload.stages|
    ensures Life(c, History(chain, s))
  {
    hide ValidRecord, StageStep;
    StagesAligned(c, chain, s);
    var h := History(chain, s);
    assert ValidManifest(c, chain[0]);
    forall i | 0 <= i < |h| ensures ValidRecord(c, h[i]) {
      assert ValidManifest(c, chain[i]);
    }
    forall i | 0 < i < |h| ensures h[i - 1] == h[i] || StageStep(h[i - 1], h[i]) {
      assert Follows(chain[i - 1], chain[i]);
    }
  }

  /** Exclusions are never taken back. */
  lemma {:induction false} ExclusionsGrow(c: Context, h: seq<Record>, i: nat, j: nat, digest: string)
    requires Life(c, h) && i <= j < |h| && digest in h[i].excluded
    ensures digest in h[j].excluded
    decreases j
  {
    hide ValidRecord, StageAllowed;
    if i < j {
      ExclusionsGrow(c, h, i, j - 1, digest);
      assert h[j - 1] == h[j] || StageStep(h[j - 1], h[j]);
    }
  }

  /** A checkpoint once excluded is never accepted for the rest of the run. */
  lemma ExcludedNeverAccepted(c: Context, h: seq<Record>, i: nat, j: nat)
    requires Life(c, h) && i <= j < |h| && h[j].checkpoint.Some?
    ensures h[j].checkpoint.value.sha256 !in h[i].excluded
  {
    hide StageStep;
    assert ValidRecord(c, h[j]);
    if h[j].checkpoint.value.sha256 in h[i].excluded {
      ExclusionsGrow(c, h, i, j, h[j].checkpoint.value.sha256);
    }
  }

  /** A requested rerun stays due until the stage completes with a checkpoint that was not
      excluded when the rerun was requested. */
  lemma {:induction false} ObligationsAreMet(c: Context, h: seq<Record>, i: nat, j: nat)
    requires Life(c, h) && i <= j < |h| && h[i].rerunRequired && !h[j].rerunRequired
    ensures exists k :: i < k <= j && CompletesAfresh(h[i], h[k])
    decreases j
  {
    hide StageAllowed;
    if h[j - 1].rerunRequired {
      assert h[j - 1] == h[j] || StageStep(h[j - 1], h[j]);
      assert ValidRecord(c, h[j]);
      ExcludedNeverAccepted(c, h, i, j);
      assert CompletesAfresh(h[i], h[j]);
    } else {
      ObligationsAreMet(c, h, i, j - 1);
    }
  }

  predicate CompletesAfresh(requested: Record, r: Record) {
    r.state.Complete? && !r.rerunRequired && r.checkpoint.Some? && r.checkpoint.value.sha256 !in requested.excluded
  }

  /** No stage is ever skipped, and none that has left the pending state returns to it. */
  lemma {:induction false} PendingOnlyAtFirst(c: Context, h: seq<Record>, i: nat, j: nat)
    requires Life(c, h) && i <= j < |h|
    ensures !h[j].state.Skipped?
    ensures h[j].state.Pending? ==> h[i] == h[j]
    decreases j
  {
    hide ValidRecord;
    if j == 0 {
    } else {
      assert h[j - 1] == h[j] || StageStep(h[j - 1], h[j]);
      PendingOnlyAtFirst(c, h, if i < j then i else j - 1, j - 1);
    }
  }

  /** An accepted checkpoint is replaced only by way of an invalidation that says why. */
  lemma {:induction false} AcceptanceIsStable(c: Context, h: seq<Record>, i: nat, j: nat)
    requires Life(c, h) && i <= j < |h|
    requires h[i].state.Complete? && h[i].checkpoint != h[j].checkpoint
    ensures exists k :: i < k <= j && Explained(h[k])
    decreases j
  {
    hide ValidDecision;
    assert ValidRecord(c, h[i]) && ValidRecord(c, h[j]) && ValidRecord(c, h[j - 1]);
    assert h[j - 1] == h[j] || StageStep(h[j - 1], h[j]);
    if h[i].checkpoint != h[j - 1].checkpoint {
      AcceptanceIsStable(c, h, i, j - 1);
    } else {
      assert Explained(h[j]);
    }
  }

  predicate Explained(r: Record) {
    r.state.Invalidated? && r.compatibility.Some? && !r.compatibility.value.reusable
  }

  /** A complete run has an accepted checkpoint for every stage, none of them excluded at
      any earlier revision. */
  lemma CompleteRunIsAccepted(c: Context, chain: seq<Manifest>, i: nat, j: nat, s: nat)
    requires ValidChain(c, chain) && i <= j < |chain| && chain[j].payload.state.Complete?
    requires s < |chain[0].payload.stages|
    ensures s < |chain[i].payload.stages| && s < |chain[j].payload.stages|
    ensures var r := chain[j].payload.stages[s];
      && r.state.Complete? && r.checkpoint.Some? && !r.rerunRequired
      && r.checkpoint.value.sha256 !in chain[i].payload.stages[s].excluded
    ensures chain[j].payload.outputs != []
  {
    hide StageStep;
    ChainLives(c, chain, s);
    var h := History(chain, s);
    assert ValidManifest(c, chain[j]);
    assert h[j] == chain[j].payload.stages[s] && h[i] == chain[i].payload.stages[s];
    assert ValidRecord(c, h[j]);
    ExcludedNeverAccepted(c, h, i, j);
  }
}
