/**
  Which gate result leads to which outcome of an automatic review
  (packages/agent/src/autoReviewHandler.ts:301-648).
 */
module ReviewOutcomes {
  import opened Collections
  import opened ReviewFindings
  import opened ReviewGate
  import opened ReviewStreaks

  /** Some finding of the review has reached the stall threshold, and nothing excuses it. */
  ghost predicate Stalls(settings: Settings, findings: seq<Finding>) {
    !settings.synthesisException &&
    exists f :: f in findings && f.streak.Some? && f.streak.value >= settings.stallThreshold
  }

  /** The review itself went wrong: all it found was made by the gate, in words that another review may clear. */
  ghost predicate OnlyReviewFailed(settings: Settings, findings: seq<Finding>) {
    findings != [] && !exists f :: f in findings && (f.source != "review_gate" || !settings.retryText(f))
  }

  /** Every outcome has exactly one cause. */
  lemma OutcomeIff(settings: Settings, result: GateResult, currentIteration: int)
    ensures var o := HandleGate(settings, result, currentIteration);
      var goesOn := result.status == RequestChanges && !Stalls(settings, result.findings) &&
                    currentIteration < settings.maxIterations;
      && (o == Accepted <==> result.status == Success)
      && (o == OperatorInputRequired <==> result.status == OperatorInput)
      && (forall reason :: o == ManualReviewNeeded(Handoff(reason)) <==> result.status == ManualReview(reason))
      && (o == ManualReviewNeeded(StalledReworkLoop) <==>
            result.status == RequestChanges && Stalls(settings, result.findings))
      && (o == ManualReviewNeeded(MaxIterations) <==>
            && result.status == RequestChanges && !Stalls(settings, result.findings)
            && currentIteration >= settings.maxIterations)
      && (o == ReviewRetryRequested <==> goesOn && OnlyReviewFailed(settings, result.findings))
      && (o == ReworkRequested <==> goesOn && !OnlyReviewFailed(settings, result.findings))
  {
    StalledIff(result.findings, settings.stallThreshold);
  }
}
