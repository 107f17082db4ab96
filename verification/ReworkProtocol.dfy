/**
  The automatic rework protocol of a task (packages/agent/src/coordinator.ts:3756-3859, 4629-5130):
  what each finished implementer or reviewer stage does to the task row and its attempt history.

  The task has no roadmap artifact and the stages end without a runtime error.
 */
module ReworkProtocol {
  import opened Collections
  import opened ReviewFindings
  import opened ReviewStreaks
  import opened FailureFingerprint
  import opened FingerprintGuard

  datatype Status = Implementing | InReview | BlockedExternal | Qa | Done

  /** The fields of a task row that the protocol reads or writes; an absent counter is zero. */
  datatype Row = Row(
    status: Status, reviewIterationCount: int, retryCount: int, reworkRequested: bool,
    manualReviewRequired: bool, findings: seq<Finding>, attempts: seq<Attempt>)

  /** leq: how the finding contents of a fingerprint compare. */
  datatype Limits = Limits(
    maxReviewIterations: Option<int>, defaultMaxIterations: int, evidenceMaxRework: int, stallThreshold: int,
    leq: Order)

  function ReviewLimit(l: Limits): int {
    Min(if l.maxReviewIterations.Some? then l.maxReviewIterations.value else l.defaultMaxIterations, 10)
  }

  function EvidenceLimit(l: Limits): int {
    Min(ReviewLimit(l), l.evidenceMaxRework)
  }

  /** The verdict of the completion evidence guard; digest: of what it objects to. */
  datatype Evidence =
    | Sufficient
    | Insufficient(repairable: bool, needsManualReview: bool, digest: string)

  datatype ImplementerRun =
    | Terminalized
    | SkippedReview(evidence: Evidence, qaEnabled: bool)
    | Finished(noDelta: bool, evidence: Evidence)

  /** snapshotId: the requirements snapshot of the task row that the stage started with. */
  datatype ReviewerRun = ReviewerRun(
    round: Round, retryText: Finding -> bool, snapshotId: Option<string>, evidence: Evidence, qaEnabled: bool)

  const ManifestStage := "implementation_manifest"
  const ReviewStage := "review_gate"

  // ---- What the stages do, on values ----

  /** The fields a clean transition resets. */
  function CleanReset(row: Row, status: Status): Row {
    Row(status, 0, 0, false, false, [], row.attempts)
  }

  function Record(row: Row, stage: string, fingerprint: Fingerprint): Row {
    row.(attempts := row.attempts + [Recorded(stage, fingerprint)])
  }

  function SeenBefore(row: Row, stage: string, fingerprint: Fingerprint): bool {
    !Granted(PriorFingerprint(row.attempts, stage, fingerprint))
  }

  predicate MayReworkEvidence(l: Limits, row: Row, evidence: Evidence) {
    evidence.Insufficient? && evidence.repairable && row.retryCount + 1 <= EvidenceLimit(l)
  }

  function ReworkEvidence(row: Row, fingerprint: Fingerprint): Row {
    var recorded := Record(row, ManifestStage, fingerprint);
    if SeenBefore(row, ManifestStage, fingerprint) then
      recorded.(status := BlockedExternal, reworkRequested := false, manualReviewRequired := true)
    else
      recorded.(status := Implementing, retryCount := row.retryCount + 1, reworkRequested := true,
                manualReviewRequired := false)
  }

  function HandOff(row: Row): Row {
    CleanReset(row, InReview).(reviewIterationCount := row.reviewIterationCount,
                               findings := if row.reworkRequested then row.findings else [])
  }

  function AfterImplementer(l: Limits, row: Row, run: ImplementerRun): Row {
    match run
    case Terminalized => row.(status := BlockedExternal)
    case SkippedReview(evidence, qaEnabled) =>
      if evidence.Insufficient? then
        row.(status := BlockedExternal, manualReviewRequired := evidence.needsManualReview)
      else CleanReset(row, if qaEnabled then Qa else Done)
    case Finished(noDelta, evidence) =>
      if row.reworkRequested && noDelta then
        row.(status := BlockedExternal, reworkRequested := false, manualReviewRequired := true)
      else if MayReworkEvidence(l, row, evidence) then ReworkEvidence(row, ManifestFailure(evidence.digest))
      else if evidence.Insufficient? then
        row.(status := BlockedExternal, manualReviewRequired := evidence.needsManualReview)
      else HandOff(row)
  }

  /** Only a task with a roadmap artifact can be the deterministic synthesis exception. */
  function SettingsOf(l: Limits, run: ReviewerRun): Settings {
    Settings(ReviewLimit(l), l.stallThreshold, false, run.retryText)
  }

  function ReviewOf(row: Row, run: ReviewerRun): Seen {
    Happened(run.round, row.findings, row.reviewIterationCount + 1)
  }

  function OutcomeOf(l: Limits, row: Row, run: ReviewerRun): Outcome {
    HandleGate(SettingsOf(l, run), ReviewOf(row, run).result, row.reviewIterationCount + 1)
  }

  /** Sent back to the implementer or to another review, unless this failure was sent back before. */
  function SendBack(row: Row, status: Status, fingerprint: Fingerprint, findings: seq<Finding>): Row {
    var recorded := Record(row, ReviewStage, fingerprint).(
      reviewIterationCount := row.reviewIterationCount + 1, findings := findings);
    if SeenBefore(row, ReviewStage, fingerprint) then
      recorded.(status := BlockedExternal, reworkRequested := false, manualReviewRequired := true)
    else
      recorded.(status := status, retryCount := 0, reworkRequested := status == Implementing,
                manualReviewRequired := false)
  }

  function StopForManualReview(row: Row, run: ReviewerRun, why: StopReason, findings: seq<Finding>): Row {
    var keepsRetryCount := why.StalledReworkLoop? || run.evidence.Insufficient?;
    row.(status := BlockedExternal, retryCount := if keepsRetryCount then row.retryCount else 0,
         reworkRequested := false, reviewIterationCount := row.reviewIterationCount + 1,
         manualReviewRequired := true, findings := findings)
  }

  function Accept(row: Row, run: ReviewerRun, findings: seq<Finding>): Row {
    var current := row.reviewIterationCount + 1;
    if run.evidence.Insufficient? then
      row.(status := BlockedExternal, reviewIterationCount := current, findings := findings,
           manualReviewRequired := run.evidence.needsManualReview)
    else if run.qaEnabled then CleanReset(row, Qa).(reviewIterationCount := current, findings := findings)
    else CleanReset(row, Done)
  }

  function ApplyOutcome(l: Limits, row: Row, run: ReviewerRun, outcome: Outcome, findings: seq<Finding>): Row {
    var fingerprint := ReviewFingerprint(outcome, findings, run.snapshotId, l.leq);
    match outcome
    case ManualReviewNeeded(why) => StopForManualReview(row, run, why, findings)
    case OperatorInputRequired =>
      row.(status := BlockedExternal, retryCount := 0, reworkRequested := false,
           reviewIterationCount := row.reviewIterationCount + 1, manualReviewRequired := false, findings := findings)
    case ReworkRequested => SendBack(row, Implementing, fingerprint, findings)
    case ReviewRetryRequested => SendBack(row, InReview, fingerprint, findings)
    case Accepted => Accept(row, run, findings)
  }

  function AfterReviewer(l: Limits, row: Row, run: ReviewerRun): Row {
    ApplyOutcome(l, row, run, OutcomeOf(l, row, run), ReviewOf(row, run).result.findings)
  }

  // ---- The row as the coordinator updates it ----

  class TaskRecord {
    var status: Status
    var reviewIterationCount: int
    var retryCount: int
    var reworkRequested: bool
    var manualReviewRequired: bool
    var findings: seq<Finding>
    var attempts: seq<Attempt>

    function Value(): Row
      reads this
    {
      Row(status, reviewIterationCount, retryCount, reworkRequested, manualReviewRequired, findings, attempts)
    }

    constructor ()
      ensures Value() == Row(Implementing, 0, 0, false, false, [], [])
    {
      status, reviewIterationCount, retryCount := Implementing, 0, 0;
      reworkRequested, manualReviewRequired := false, false;
      findings, attempts := [], [];
    }

    method Reset(newStatus: Status)
      modifies this
      ensures Value() == CleanReset(old(Value()), newStatus)
    {
      status, reviewIterationCount, retryCount := newStatus, 0, 0;
      reworkRequested, manualReviewRequired := false, false;
      findings := [];
    }

    method RecordFailure(stage: string, fingerprint: Fingerprint) returns (seenBefore: bool)
      modifies this`attempts
      ensures Value() == Record(old(Value()), stage, fingerprint)
      ensures seenBefore == SeenBefore(old(Value()), stage, fingerprint)
    {
      var prior := PriorFingerprint(attempts, stage, fingerprint);
      attempts := attempts + [Recorded(stage, fingerprint)];
      return prior.repeated && !prior.overridden;
    }

    method BlockForSameFailure()
      modifies this
      ensures Value() == old(Value()).(status := BlockedExternal, reworkRequested := false, manualReviewRequired := true)
    {
      status, reworkRequested, manualReviewRequired := BlockedExternal, false, true;
    }

    /** False when the evidence guard has to block the task instead. */
    method ReturnImplementationEvidenceToRework(l: Limits, evidence: Evidence) returns (returned: bool)
      requires evidence.Insufficient?
      modifies this
      ensures returned == MayReworkEvidence(l, old(Value()), evidence)
      ensures Value() ==
              if returned then ReworkEvidence(old(Value()), ManifestFailure(evidence.digest)) else old(Value())
    {
      if !evidence.repairable {
        return false;
      }
      var nextIteration := retryCount + 1;
      if nextIteration > EvidenceLimit(l) {
        return false;
      }
      var seenBefore := RecordFailure(ManifestStage, ManifestFailure(evidence.digest));
      if seenBefore {
        BlockForSameFailure();
        return true;
      }
      status, retryCount := Implementing, nextIteration;
      reworkRequested, manualReviewRequired := true, false;
      return true;
    }

    method FinishImplementer(l: Limits, run: ImplementerRun)
      modifies this
      ensures Value() == AfterImplementer(l, old(Value()), run)
    {
      match run {
        case Terminalized =>
          status := BlockedExternal;
        case SkippedReview(evidence, qaEnabled) =>
          if evidence.Insufficient? {
            status, manualReviewRequired := BlockedExternal, evidence.needsManualReview;
          } else {
            Reset(if qaEnabled then Qa else Done);
          }
        case Finished(noDelta, evidence) =>
          if reworkRequested && noDelta {
            status, reworkRequested, manualReviewRequired := BlockedExternal, false, true;
          } else if evidence.Insufficient? {
            var returned := ReturnImplementationEvidenceToRework(l, evidence);
            if !returned {
              status, manualReviewRequired := BlockedExternal, evidence.needsManualReview;
            }
          } else {
            var iteration := reviewIterationCount;
            var carried := if reworkRequested then findings else [];
            Reset(InReview);
            reviewIterationCount, findings := iteration, carried;
          }
      }
    }

    method SendBackUnlessRepeated(newStatus: Status, fingerprint: Fingerprint, newFindings: seq<Finding>)
      modifies this
      ensures Value() == SendBack(old(Value()), newStatus, fingerprint, newFindings)
    {
      var seenBefore := RecordFailure(ReviewStage, fingerprint);
      reviewIterationCount, findings := reviewIterationCount + 1, newFindings;
      if seenBefore {
        BlockForSameFailure();
        return;
      }
      status, retryCount := newStatus, 0;
      reworkRequested, manualReviewRequired := newStatus == Implementing, false;
    }

    method AcceptReview(run: ReviewerRun, newFindings: seq<Finding>)
      modifies this
      ensures Value() == Accept(old(Value()), run, newFindings)
    {
      var currentIteration := reviewIterationCount + 1;
      if run.evidence.Insufficient? {
        status, manualReviewRequired := BlockedExternal, run.evidence.needsManualReview;
        reviewIterationCount, findings := currentIteration, newFindings;
      } else if run.qaEnabled {
        Reset(Qa);
        reviewIterationCount, findings := currentIteration, newFindings;
      } else {
        Reset(Done);
      }
    }

    method ApplyGateOutcome(l: Limits, run: ReviewerRun, outcome: Outcome, newFindings: seq<Finding>)
      modifies this
      ensures Value() == ApplyOutcome(l, old(Value()), run, outcome, newFindings)
    {
      var fingerprint := ReviewFingerprint(outcome, newFindings, run.snapshotId, l.leq);
      match outcome {
        case ManualReviewNeeded(why) =>
          if !why.StalledReworkLoop? && !run.evidence.Insufficient? {
            retryCount := 0;
          }
          status, reworkRequested, manualReviewRequired := BlockedExternal, false, true;
          reviewIterationCount, findings := reviewIterationCount + 1, newFindings;
        case OperatorInputRequired =>
          status, retryCount, reworkRequested, manualReviewRequired := BlockedExternal, 0, false, false;
          reviewIterationCount, findings := reviewIterationCount + 1, newFindings;
        case ReworkRequested =>
          SendBackUnlessRepeated(Implementing, fingerprint, newFindings);
        case ReviewRetryRequested =>
          SendBackUnlessRepeated(InReview, fingerprint, newFindings);
        case Accepted =>
          AcceptReview(run, newFindings);
      }
    }

    method FinishReviewer(l: Limits, run: ReviewerRun)
      modifies this
      ensures Value() == AfterReviewer(l, old(Value()), run)
    {
      var refreshedTask := Value();
      var outcome := OutcomeOf(l, refreshedTask, run);
      ApplyGateOutcome(l, run, outcome, ReviewOf(refreshedTask, run).result.findings);
    }
  }
}
