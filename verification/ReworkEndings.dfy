/**
  How tasks leave the rework loop: what each stage makes of a task, and what every finished task has behind it
  (packages/agent/src/coordinator.ts:3756-3859, 4629-5130).
 */
module ReworkEndings {
  import opened Collections
  import opened ReviewFindings
  import opened ReviewGate
  import opened ReviewStreaks
  import opened ReviewOutcomes
  import opened FailureFingerprint
  import opened FingerprintGuard
  import opened ReworkProtocol
  import opened ReworkRuns
  import opened GateDecisions

  // ---- One stage ----

  /** The implementer was sent back to work and changed nothing. */
  predicate NothingChanged(row: Row, run: ImplementerRun) {
    run.Finished? && row.reworkRequested && run.noDelta
  }

  /** The evidence guard may hand the work back: it can be repaired and there is a retry left. */
  ghost predicate RetryLeft(l: Limits, row: Row, run: ImplementerRun) {
    && run.Finished? && !NothingChanged(row, run) && run.evidence.Insufficient? && run.evidence.repairable
    && row.retryCount < l.evidenceMaxRework && row.retryCount < 10
    && row.retryCount < (if l.maxReviewIterations.Some? then l.maxReviewIterations.value else l.defaultMaxIterations)
  }

  /** The same failure of the same stage was recorded before, and not as often overridden. */
  ghost predicate SeenEnough(row: Row, stage: string, fingerprint: Fingerprint) {
    !Granted(PriorFingerprint(row.attempts, stage, fingerprint))
  }

  /**
    An implementer stage finishes the task only when the review is skipped and the evidence is sufficient; hands it
    to the reviewer only with sufficient evidence and something changed; keeps it only with a retry left for a new
    failure; and blocks it otherwise.
   */
  lemma ImplementerEnds(l: Limits, row: Row, run: ImplementerRun)
    requires row.status == Implementing
    ensures var s := AfterImplementer(l, row, run).status;
      && (s == Qa <==> run.SkippedReview? && run.evidence.Sufficient? && run.qaEnabled)
      && (s == Done <==> run.SkippedReview? && run.evidence.Sufficient? && !run.qaEnabled)
      && (s == InReview <==> run.Finished? && run.evidence.Sufficient? && !NothingChanged(row, run))
      && (s == Implementing <==>
            RetryLeft(l, row, run) && !SeenEnough(row, ManifestStage, ManifestFailure(run.evidence.digest)))
  {
  }

  /** What a blocked implementer stage leaves: whether a person has to look, and no counter lost. */
  lemma ImplementerBlocks(l: Limits, row: Row, run: ImplementerRun)
    requires row.status == Implementing && AfterImplementer(l, row, run).status == BlockedExternal
    ensures var r := AfterImplementer(l, row, run);
      && r.reviewIterationCount == row.reviewIterationCount && r.retryCount == row.retryCount
      && r.findings == row.findings
      && (r.manualReviewRequired <==>
            match run
            case Terminalized => row.manualReviewRequired
            case SkippedReview(evidence, _) => evidence.needsManualReview
            case Finished(_, evidence) =>
              NothingChanged(row, run) || RetryLeft(l, row, run) || evidence.needsManualReview)
      && (NothingChanged(row, run) || RetryLeft(l, row, run) ==> !r.reworkRequested)
  {
  }

  /** Finishing or handing over resets what the loop counted; the review keeps what a rework was about. */
  lemma ImplementerHandsOn(l: Limits, row: Row, run: ImplementerRun)
    requires row.status == Implementing && AfterImplementer(l, row, run).status !in {Implementing, BlockedExternal}
    ensures var r := AfterImplementer(l, row, run);
      && r.retryCount == 0 && !r.reworkRequested && !r.manualReviewRequired && r.attempts == row.attempts
      && r.reviewIterationCount == (if r.status == InReview then row.reviewIterationCount else 0)
      && r.findings == (if r.status == InReview && row.reworkRequested then row.findings else [])
  {
  }

  /** The gate asked for changes, nothing stalled, and reviews are left. */
  ghost predicate GoesOn(l: Limits, row: Row, run: ReviewerRun) {
    var result := ReviewOf(row, run).result;
    && result.status == RequestChanges && !Stalls(SettingsOf(l, run), result.findings)
    && row.reviewIterationCount + 1 < 10
    && row.reviewIterationCount + 1 <
       (if l.maxReviewIterations.Some? then l.maxReviewIterations.value else l.defaultMaxIterations)
  }

  /**
    A reviewer stage finishes the task only when the gate's result was success and the completion evidence is
    sufficient; sends it round the loop only when the gate asked for changes, no finding stalled, reviews are left
    and the failure is new; and blocks it otherwise.
   */
  lemma ReviewerEnds(l: Limits, row: Row, run: ReviewerRun)
    requires row.status == InReview
    ensures var s := AfterReviewer(l, row, run).status; var result := ReviewOf(row, run).result;
      && (s == Qa <==> result.status == Success && run.evidence.Sufficient? && run.qaEnabled)
      && (s == Done <==> result.status == Success && run.evidence.Sufficient? && !run.qaEnabled)
      && (s == Implementing <==>
            && GoesOn(l, row, run) && !OnlyReviewFailed(SettingsOf(l, run), result.findings)
            && !SeenEnough(row, ReviewStage, ReviewFingerprint(ReworkRequested, result.findings, run.snapshotId, l.leq)))
      && (s == InReview <==>
            && GoesOn(l, row, run) && OnlyReviewFailed(SettingsOf(l, run), result.findings)
            && !SeenEnough(row, ReviewStage,
                           ReviewFingerprint(ReviewRetryRequested, result.findings, run.snapshotId, l.leq)))
  {
    hide ReviewOnce, ReviewFingerprint, HandleGate, Stalls, OnlyReviewFailed, PriorFingerprint;
    OutcomeIff(SettingsOf(l, run), ReviewOf(row, run).result, row.reviewIterationCount + 1);
  }

  /** The stop is neither about this task's own repeats nor about its evidence, so its retries are forgotten. */
  ghost predicate ForgetsRetries(l: Limits, row: Row, run: ReviewerRun) {
    var result := ReviewOf(row, run).result;
    match result.status
    case Success => false
    case OperatorInput => true
    case ManualReview(_) => run.evidence.Sufficient?
    case RequestChanges =>
      !Stalls(SettingsOf(l, run), result.findings) && !GoesOn(l, row, run) && run.evidence.Sufficient?
  }

  /**
    What a blocked reviewer stage leaves: the review's findings, one more iteration, and whether a person has to look;
    that is the evidence guard's word after a success, no when the operator is asked, and yes otherwise.
   */
  lemma ReviewerBlocks(l: Limits, row: Row, run: ReviewerRun)
    requires row.status == InReview && AfterReviewer(l, row, run).status == BlockedExternal
    ensures var r := AfterReviewer(l, row, run); var result := ReviewOf(row, run).result;
      && r.reviewIterationCount == row.reviewIterationCount + 1 && r.findings == result.findings
      && (result.status == Success ==> run.evidence.Insufficient?)
      && (r.manualReviewRequired <==>
            match result.status
            case Success => run.evidence.needsManualReview
            case OperatorInput => false
            case _ => true)
      && (result.status != Success ==> !r.reworkRequested)
      && r.retryCount == (if ForgetsRetries(l, row, run) then 0 else row.retryCount)
  {
    hide ReviewOnce, ReviewFingerprint, HandleGate, Stalls, OnlyReviewFailed, PriorFingerprint;
    OutcomeIff(SettingsOf(l, run), ReviewOf(row, run).result, row.reviewIterationCount + 1);
  }

  /** A finished task starts over; one in QA keeps what its review found. */
  lemma ReviewerFinishes(l: Limits, row: Row, run: ReviewerRun)
    requires row.status == InReview && AfterReviewer(l, row, run).status in {Qa, Done}
    ensures var r := AfterReviewer(l, row, run);
      && r.retryCount == 0 && !r.reworkRequested && !r.manualReviewRequired && r.attempts == row.attempts
      && r.reviewIterationCount == (if r.status == Qa then row.reviewIterationCount + 1 else 0)
      && r.findings == (if r.status == Qa then ReviewOf(row, run).result.findings else [])
  {
    hide ReviewOnce, ReviewFingerprint, HandleGate, Stalls, OnlyReviewFailed, PriorFingerprint;
    OutcomeIff(SettingsOf(l, run), ReviewOf(row, run).result, row.reviewIterationCount + 1);
  }

  // ---- Whole runs ----

  /** The stage finishes the task: by skipping the review, or by a review that the gate let pass. */
  ghost predicate Finishes(row: Row, e: StageRun, qaEnabled: bool) {
    match e
    case Implemented(run) => run.SkippedReview? && run.evidence.Sufficient? && run.qaEnabled == qaEnabled
    case Reviewed(run) =>
      ReviewOf(row, run).result.status == Success && run.evidence.Sufficient? && run.qaEnabled == qaEnabled
    case Noted(_) => false
  }

  ghost predicate FinishedAt(l: Limits, start: Row, events: seq<StageRun>, i: nat, qaEnabled: bool) {
    i < |events| && Finishes(RowAfter(l, start, events[..i]), events[i], qaEnabled)
  }

  function FinishedStatus(qaEnabled: bool): Status {
    if qaEnabled then Qa else Done
  }

  lemma StepFinishesIff(l: Limits, row: Row, e: StageRun, qaEnabled: bool)
    requires Enabled(row, e)
    ensures Step(l, row, e).status == FinishedStatus(qaEnabled) <==>
            Finishes(row, e, qaEnabled) || (e.Noted? && row.status == FinishedStatus(qaEnabled))
  {
    match e
    case Implemented(run) => ImplementerEnds(l, row, run);
    case Reviewed(run) => ReviewerEnds(l, row, run);
    case Noted(_) =>
  }

  lemma FinishedInInit(l: Limits, start: Row, events: seq<StageRun>, qaEnabled: bool)
    requires events != []
    ensures (exists i: nat :: FinishedAt(l, start, events, i, qaEnabled)) <==>
            (exists i: nat :: FinishedAt(l, start, Init(events), i, qaEnabled)) ||
            Finishes(RowAfter(l, start, Init(events)), Last(events), qaEnabled)
  {
    hide Finishes;
    forall i: nat | i < |events| - 1
      ensures FinishedAt(l, start, events, i, qaEnabled) <==> FinishedAt(l, start, Init(events), i, qaEnabled)
    {
      assert Init(events)[..i] == events[..i];
    }
    assert FinishedAt(l, start, events, |events| - 1, qaEnabled) <==>
           Finishes(RowAfter(l, start, Init(events)), Last(events), qaEnabled);
  }

  /**
    Over any run a task ends in QA, or done, exactly when one of its stages was a skipped review or a review that
    the gate let pass, with sufficient completion evidence and QA enabled, or not.
   */
  lemma {:induction false} FinishedIff(l: Limits, start: Row, events: seq<StageRun>, qaEnabled: bool)
    requires Looping(start) && IsRun(l, start, events)
    ensures RowAfter(l, start, events).status == FinishedStatus(qaEnabled) <==>
            exists i: nat :: FinishedAt(l, start, events, i, qaEnabled)
    decreases |events|
  {
    if events != [] {
      hide Finishes;
      var row, next := LastStage(l, start, events);
      FinishedIff(l, start, Init(events), qaEnabled);
      StepFinishesIff(l, row, Last(events), qaEnabled);
      FinishedInInit(l, start, events, qaEnabled);
    }
  }

  // ---- What a finished task has been through ----

  /** What the structured review of the task was held against. */
  function HeldAgainst(row: Row, run: ReviewerRun): Input {
    AskedAbout(run.round.ctx, Input(run.round.strategy, row.reviewIterationCount + 1, row.findings))
  }

  /**
    A task that a structured review finished was reviewed soundly: each finding of the review before was reported on
    under its source and closed with evidence if it was closed, and whatever anyone raised was answered, or was a
    recoverable failure to cover security areas like all the rest.
   */
  lemma FinishedMeansReviewed(l: Limits, start: Row, events: seq<StageRun>, i: nat, qaEnabled: bool)
    requires FinishedAt(l, start, events, i, qaEnabled)
    requires events[i].Reviewed? && events[i].reviewer.round.review.Structured?
    ensures var run := events[i].reviewer; var parsed := run.round.review.parsed;
      var input := HeldAgainst(RowAfter(l, start, events[..i]), run);
      var blockers := StructuredBlockers(run.round.ctx, input, parsed, run.round.deterministic);
      && Sound(run.round.ctx, input, parsed) && !run.round.ctx.needsEvidence
      && forall id :: Raised(run.round.ctx, input, parsed, run.round.deterministic, id) ==>
           CoverageOnly(run.round.ctx, blockers) ||
           exists b :: b in blockers && b.id == id && !run.round.ctx.actionable(b)
  {
    var run := events[i].reviewer;
    var parsed, more := run.round.review.parsed, run.round.deterministic;
    var input := HeldAgainst(RowAfter(l, start, events[..i]), run);
    hide StructuredDecision, StructuredBlockers, Raised, CoverageOnly, Sound;
    StructuredStatusIff(run.round.ctx, input, parsed, more);
    forall id | Raised(run.round.ctx, input, parsed, more, id)
      ensures var blockers := StructuredBlockers(run.round.ctx, input, parsed, more);
        CoverageOnly(run.round.ctx, blockers) ||
        exists b :: b in blockers && b.id == id && !run.round.ctx.actionable(b)
    {
      SuccessAnswersEverything(run.round.ctx, input, parsed, more, id);
    }
  }
}
