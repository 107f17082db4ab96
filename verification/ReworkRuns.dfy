/**
  Whole runs of the rework protocol: they end, within stated numbers of stage runs, they never send
  the same failure back too often, and they feed the review gate one continuous history
  (packages/agent/src/coordinator.ts:3756-3859, 4692-5130, packages/agent/src/autoReviewHandler.ts:310-602).
 */
module ReworkRuns {
  import opened Collections
  import opened ReviewFindings
  import opened ReviewGate
  import opened ReviewStreaks
  import opened FailureFingerprint
  import opened FingerprintGuard
  import opened ReworkProtocol

  datatype StageRun =
    | Implemented(implementer: ImplementerRun)
    | Reviewed(reviewer: ReviewerRun)
    | Noted(attempt: Attempt)

  predicate Looping(row: Row) {
    row.status == Implementing || row.status == InReview
  }

  predicate Enabled(row: Row, e: StageRun) {
    && (e.Implemented? ==> row.status == Implementing)
    && (e.Reviewed? ==> row.status == InReview)
  }

  function Step(l: Limits, row: Row, e: StageRun): Row {
    match e
    case Implemented(run) => AfterImplementer(l, row, run)
    case Reviewed(run) => AfterReviewer(l, row, run)
    case Noted(attempt) => row.(attempts := row.attempts + [attempt])
  }

  // ---- One step ----

  lemma ImplementerLoops(l: Limits, row: Row, run: ImplementerRun)
    requires row.status == Implementing
    requires Looping(AfterImplementer(l, row, run))
    ensures var r := AfterImplementer(l, row, run);
      && r.reviewIterationCount == row.reviewIterationCount
      && (r.status == Implementing ==>
            && r.retryCount == row.retryCount + 1 <= EvidenceLimit(l)
            && r.reworkRequested && !r.manualReviewRequired && r.findings == row.findings)
      && (r.status == InReview ==>
            && r.retryCount == 0 && !r.manualReviewRequired
            && r.findings == if row.reworkRequested then row.findings else [])
  {
  }

  lemma OutcomeLoops(l: Limits, row: Row, run: ReviewerRun, outcome: Outcome, findings: seq<Finding>)
    requires Looping(ApplyOutcome(l, row, run, outcome, findings))
    ensures var r := ApplyOutcome(l, row, run, outcome, findings);
      && SendsBack(outcome)
      && Granted(PriorFingerprint(row.attempts, ReviewStage,
                                  ReviewFingerprint(outcome, findings, run.snapshotId, l.leq)))
      && r.reviewIterationCount == row.reviewIterationCount + 1
      && r.retryCount == 0 && !r.manualReviewRequired && r.findings == findings
      && (r.reworkRequested <==> r.status == Implementing)
  {
  }

  lemma SentBackBelowLimit(settings: Settings, result: GateResult, currentIteration: int)
    requires SendsBack(HandleGate(settings, result, currentIteration))
    ensures currentIteration < settings.maxIterations
    ensures result.status == RequestChanges
    ensures !settings.synthesisException ==> StalledFindings(result.findings, settings.stallThreshold) == []
  {
  }

  /** Whatever asks for changes names at least one finding, and its streak is at least one. */
  ghost predicate NamesAFinding(result: GateResult) {
    result.status == RequestChanges ==>
      result.findings != [] && result.findings[0].streak.Some? && result.findings[0].streak.value >= 1
  }

  lemma FirstIsEnriched(findings: seq<Finding>, asked: seq<Finding>, iteration: int)
    requires findings != [] && EnrichedFrom(findings, asked, iteration)
    ensures findings[0].streak.Some? && findings[0].streak.value >= 1
  {
    assert findings[0] in findings;
  }

  lemma ReviewNamesAFinding(round: Round, previousFindings: seq<Finding>, iteration: int)
    ensures NamesAFinding(ReviewOnce(round, previousFindings, iteration))
  {
    var result := ReviewOnce(round, previousFindings, iteration);
    if result.status == RequestChanges {
      ChangesAreListed(round, previousFindings, iteration);
      ReviewEnriched(round, previousFindings, iteration);
      FirstIsEnriched(result.findings, Asked(round, previousFindings), iteration);
    }
  }

  lemma FirstIsBelow(findings: seq<Finding>, threshold: int)
    requires findings != [] && findings[0].streak.Some? && findings[0].streak.value >= 1
    requires StalledFindings(findings, threshold) == []
    ensures threshold > 1
  {
    StalledIff(findings, threshold);
    assert findings[0] in findings;
  }

  /** A gate that sends the task back is below its limit, and its threshold is above one. */
  lemma SentBackAboveThreshold(settings: Settings, result: GateResult, currentIteration: int)
    requires NamesAFinding(result) && !settings.synthesisException
    requires SendsBack(HandleGate(settings, result, currentIteration))
    ensures settings.stallThreshold > 1 && currentIteration < settings.maxIterations
  {
    SentBackBelowLimit(settings, result, currentIteration);
    FirstIsBelow(result.findings, settings.stallThreshold);
  }

  lemma ReviewerLoops(l: Limits, row: Row, run: ReviewerRun)
    requires row.status == InReview
    requires Looping(AfterReviewer(l, row, run))
    ensures var r := AfterReviewer(l, row, run);
      && SendsBack(OutcomeOf(l, row, run)) && l.stallThreshold > 1
      && r.reviewIterationCount == row.reviewIterationCount + 1 < ReviewLimit(l)
      && r.retryCount == 0 && !r.manualReviewRequired
      && (r.reworkRequested <==> r.status == Implementing)
      && r.findings == ReviewOf(row, run).result.findings
  {
    hide ReviewOnce, SendBack, ReviewFingerprint, HandleGate;
    var result := ReviewOf(row, run).result;
    ReviewNamesAFinding(run.round, row.findings, row.reviewIterationCount + 1);
    OutcomeLoops(l, row, run, OutcomeOf(l, row, run), result.findings);
    SentBackAboveThreshold(SettingsOf(l, run), result, row.reviewIterationCount + 1);
  }

  /** What is left: reviews, then the implementer's turn before the reviewer's, then evidence reworks. */
  datatype Measure = Measure(reviewsLeft: nat, turns: nat, reworksLeft: nat)

  function MeasureOf(l: Limits, row: Row): Measure {
    Measure(Max(0, ReviewLimit(l) - row.reviewIterationCount), if row.status == Implementing then 1 else 0,
            Max(0, EvidenceLimit(l) - row.retryCount))
  }

  predicate Less(a: Measure, b: Measure) {
    || a.reviewsLeft < b.reviewsLeft
    || (a.reviewsLeft == b.reviewsLeft &&
        (a.turns < b.turns || (a.turns == b.turns && a.reworksLeft < b.reworksLeft)))
  }

  /** Every stage that leaves the task in the loop makes the measure smaller. */
  lemma LoopStepDecreases(l: Limits, row: Row, e: StageRun)
    requires Looping(row) && Enabled(row, e) && !e.Noted?
    requires Looping(Step(l, row, e))
    ensures Less(MeasureOf(l, Step(l, row, e)), MeasureOf(l, row))
  {
    match e
    case Implemented(run) => ImplementerLoops(l, row, run);
    case Reviewed(run) => ReviewerLoops(l, row, run);
  }

  // ---- Runs ----

  function RowAfter(l: Limits, start: Row, events: seq<StageRun>): Row
    decreases |events|
  {
    if events == [] then start
    else Step(l, RowAfter(l, start, events[..|events| - 1]), events[|events| - 1])
  }

  ghost predicate IsRun(l: Limits, start: Row, events: seq<StageRun>)
    decreases |events|
  {
    events == [] ||
    (IsRun(l, start, events[..|events| - 1]) &&
     Enabled(RowAfter(l, start, events[..|events| - 1]), events[|events| - 1]))
  }

  /** A task that enters the loop, with any attempt history. */
  predicate Fresh(row: Row) {
    Looping(row) && row.reviewIterationCount == 0 && row.retryCount == 0 && !row.reworkRequested && row.findings == []
  }

  function ReviewerRuns(events: seq<StageRun>): nat {
    if events == [] then 0
    else ReviewerRuns(events[..|events| - 1]) + (if events[|events| - 1].Reviewed? then 1 else 0)
  }

  function ImplementerRuns(events: seq<StageRun>): nat {
    if events == [] then 0
    else ImplementerRuns(events[..|events| - 1]) + (if events[|events| - 1].Implemented? then 1 else 0)
  }

  /** With a stall threshold of one, every finding counts as stalled the first time. */
  function ReviewerBound(l: Limits): nat {
    if l.stallThreshold <= 1 then 1 else Max(ReviewLimit(l), 1)
  }

  /** Implementer runs per review: the first and every evidence rework. */
  function RunsPerReview(l: Limits): nat {
    Max(EvidenceLimit(l), 0) + 1
  }

  ghost predicate Within(l: Limits, row: Row, reviewed: nat, implemented: nat) {
    var per := RunsPerReview(l);
    if row.status == Implementing then
      && row.reviewIterationCount == reviewed < ReviewerBound(l)
      && 0 <= row.retryCount < per && implemented <= reviewed * per + row.retryCount
    else if row.status == InReview then
      row.reviewIterationCount == reviewed < ReviewerBound(l) && implemented <= (reviewed + 1) * per
    else
      reviewed <= ReviewerBound(l) && implemented <= ReviewerBound(l) * per
  }

  lemma Multiples(reviewed: nat, bound: nat, per: nat)
    requires reviewed < bound
    ensures (reviewed + 1) * per == reviewed * per + per
    ensures (reviewed + 1) * per <= bound * per
  {
    assert bound * per == (reviewed + 1) * per + (bound - reviewed - 1) * per;
  }

  lemma ImplementerStaysWithin(l: Limits, row: Row, run: ImplementerRun, reviewed: nat, implemented: nat)
    requires row.status == Implementing && Within(l, row, reviewed, implemented)
    ensures Within(l, AfterImplementer(l, row, run), reviewed, implemented + 1)
  {
    Multiples(reviewed, ReviewerBound(l), RunsPerReview(l));
    if Looping(AfterImplementer(l, row, run)) {
      ImplementerLoops(l, row, run);
    }
  }

  lemma ReviewerStaysWithin(l: Limits, row: Row, run: ReviewerRun, reviewed: nat, implemented: nat)
    requires row.status == InReview && Within(l, row, reviewed, implemented)
    ensures Within(l, AfterReviewer(l, row, run), reviewed + 1, implemented)
  {
    Multiples(reviewed, ReviewerBound(l), RunsPerReview(l));
    if Looping(AfterReviewer(l, row, run)) {
      ReviewerLoops(l, row, run);
      Multiples(reviewed + 1, ReviewerBound(l), RunsPerReview(l));
    }
  }

  function One(condition: bool): nat {
    if condition then 1 else 0
  }

  lemma StepStaysWithin(l: Limits, row: Row, e: StageRun, reviewed: nat, implemented: nat)
    requires Enabled(row, e) && Within(l, row, reviewed, implemented)
    ensures Within(l, Step(l, row, e), reviewed + One(e.Reviewed?), implemented + One(e.Implemented?))
  {
    match e
    case Implemented(run) => ImplementerStaysWithin(l, row, run, reviewed, implemented);
    case Reviewed(run) => ReviewerStaysWithin(l, row, run, reviewed, implemented);
    case Noted(_) =>
  }

  lemma FreshIsWithin(l: Limits, start: Row)
    requires Fresh(start)
    ensures Within(l, start, 0, 0)
  {
  }

  /** The row before and after the last stage. */
  lemma LastStage(l: Limits, start: Row, events: seq<StageRun>) returns (row: Row, next: Row)
    requires events != [] && IsRun(l, start, events)
    ensures IsRun(l, start, Init(events)) && row == RowAfter(l, start, Init(events)) && Enabled(row, Last(events))
    ensures next == RowAfter(l, start, events) && next == Step(l, row, Last(events))
  {
    row, next := RowAfter(l, start, Init(events)), RowAfter(l, start, events);
  }

  lemma LastStaysWithin(l: Limits, row: Row, next: Row, events: seq<StageRun>)
    requires events != [] && Enabled(row, Last(events)) && next == Step(l, row, Last(events))
    requires Within(l, row, ReviewerRuns(Init(events)), ImplementerRuns(Init(events)))
    ensures Within(l, next, ReviewerRuns(events), ImplementerRuns(events))
  {
    StepStaysWithin(l, row, Last(events), ReviewerRuns(Init(events)), ImplementerRuns(Init(events)));
  }

  lemma {:induction false} RunStaysWithin(l: Limits, start: Row, events: seq<StageRun>)
    requires Fresh(start) && IsRun(l, start, events)
    ensures Within(l, RowAfter(l, start, events), ReviewerRuns(events), ImplementerRuns(events))
    decreases |events|
  {
    if events == [] {
      FreshIsWithin(l, start);
    } else {
      var row, next := LastStage(l, start, events);
      RunStaysWithin(l, start, Init(events));
      LastStaysWithin(l, row, next, events);
    }
  }

  /** From zero counters the reviewer runs at most M times and the implementer at most M * (E + 1) times. */
  lemma RunsAreBounded(l: Limits, start: Row, events: seq<StageRun>)
    requires Fresh(start) && IsRun(l, start, events)
    ensures ReviewerRuns(events) <= ReviewerBound(l)
    ensures ImplementerRuns(events) <= ReviewerBound(l) * RunsPerReview(l)
  {
    RunStaysWithin(l, start, events);
    if Looping(RowAfter(l, start, events)) {
      Multiples(ReviewerRuns(events), ReviewerBound(l), RunsPerReview(l));
    }
  }

  // ---- One review history ----

  /** The reviews of a run, in order. */
  function ReviewsOf(l: Limits, start: Row, events: seq<StageRun>): seq<Seen>
    decreases |events|
  {
    if events == [] then []
    else
      var before := events[..|events| - 1];
      var e := events[|events| - 1];
      if e.Reviewed? then ReviewsOf(l, start, before) + [ReviewOf(RowAfter(l, start, before), e.reviewer)]
      else ReviewsOf(l, start, before)
  }

  /** In the loop, the row's counter and findings are those of the reviews so far. */
  ghost predicate Agrees(row: Row, reviews: seq<Seen>) {
    && IsHistory(reviews)
    && (Looping(row) ==> row.reviewIterationCount == |reviews| && row.findings == CarriedAfter(reviews, |reviews|))
    && (row.status == Implementing && !row.reworkRequested ==> row.findings == [])
  }

  lemma ImplementerAgrees(l: Limits, row: Row, run: ImplementerRun, reviews: seq<Seen>)
    requires row.status == Implementing && Agrees(row, reviews)
    ensures Agrees(AfterImplementer(l, row, run), reviews)
  {
    if Looping(AfterImplementer(l, row, run)) {
      ImplementerLoops(l, row, run);
    }
  }

  lemma HistoryGoesOn(row: Row, run: ReviewerRun, reviews: seq<Seen>)
    requires row.status == InReview && Agrees(row, reviews)
    ensures IsHistory(reviews + [ReviewOf(row, run)])
  {
    ReviewsMakeHistory(reviews, run.round);
  }

  lemma AgreesWithLast(row: Row, reviews: seq<Seen>, seen: Seen)
    requires IsHistory(reviews + [seen])
    requires Looping(row) ==>
               && row.reviewIterationCount == |reviews| + 1 && row.findings == seen.result.findings
               && (row.reworkRequested <==> row.status == Implementing)
    ensures Agrees(row, reviews + [seen])
  {
    assert (reviews + [seen])[|reviews|] == seen;
  }

  lemma ReviewerAgrees(l: Limits, row: Row, run: ReviewerRun, reviews: seq<Seen>)
    requires row.status == InReview && Agrees(row, reviews)
    ensures Agrees(AfterReviewer(l, row, run), reviews + [ReviewOf(row, run)])
  {
    HistoryGoesOn(row, run, reviews);
    if Looping(AfterReviewer(l, row, run)) {
      ReviewerLoops(l, row, run);
    }
    AgreesWithLast(AfterReviewer(l, row, run), reviews, ReviewOf(row, run));
  }

  lemma {:induction false} RunKeepsHistory(l: Limits, start: Row, events: seq<StageRun>)
    requires Fresh(start) && IsRun(l, start, events)
    ensures Agrees(RowAfter(l, start, events), ReviewsOf(l, start, events))
    decreases |events|
  {
    if events == [] {
      assert IsHistory([]);
    } else {
      var before := events[..|events| - 1];
      var row := RowAfter(l, start, before);
      RunKeepsHistory(l, start, before);
      match events[|events| - 1]
      case Implemented(run) =>
        ImplementerAgrees(l, row, run, ReviewsOf(l, start, before));
      case Reviewed(run) =>
        ReviewerAgrees(l, row, run, ReviewsOf(l, start, before));
      case Noted(_) =>
    }
  }

  /**
    In any run, a review that sends the task back leaves no finding that the last threshold reviews all
    listed and remembered, and every carried finding's streak counts exactly those reviews.
   */
  lemma SentBackUnstalledInRun(l: Limits, start: Row, events: seq<StageRun>)
    requires Fresh(start) && IsRun(l, start, events)
    requires events != [] && events[|events| - 1].Reviewed?
    requires Looping(RowAfter(l, start, events))
    ensures var reviews := ReviewsOf(l, start, events);
      && 1 <= |reviews| == RowAfter(l, start, events).reviewIterationCount
      && (forall f :: f in RowAfter(l, start, events).findings ==>
            StreakIs(f, |reviews|, RunLength(reviews, |reviews|, f.id)))
      && (1 <= l.stallThreshold <= |reviews| ==>
            forall id :: !ListedThroughout(reviews, |reviews|, l.stallThreshold, id))
  {
    hide StreakIs, RunLength, ListedThroughout, IsHistory;
    var before := events[..|events| - 1];
    var row := RowAfter(l, start, before);
    var run := events[|events| - 1].reviewer;
    var reviews := ReviewsOf(l, start, events);
    RunKeepsHistory(l, start, before);
    RunKeepsHistory(l, start, events);
    ReviewerLoops(l, row, run);
    assert reviews[|reviews| - 1] == ReviewOf(row, run);
    StreaksAreRunLengths(reviews, |reviews|);
    if 1 <= l.stallThreshold <= |reviews| {
      NoneAtThreshold(SettingsOf(l, run), reviews, |reviews|);
    }
  }

  // ---- The guard over a run ----

  /** The fingerprint of what the review found. */
  function FingerprintOf(l: Limits, row: Row, run: ReviewerRun): Fingerprint {
    ReviewFingerprint(OutcomeOf(l, row, run), ReviewOf(row, run).result.findings, run.snapshotId, l.leq)
  }

  /** What one stage run asks of the fingerprint guard. */
  function RequestsOf(l: Limits, row: Row, e: StageRun): seq<Event> {
    match e
    case Implemented(run) =>
      if run.Finished? && !(row.reworkRequested && run.noDelta) && MayReworkEvidence(l, row, run.evidence)
      then [Request(ManifestStage, ManifestFailure(run.evidence.digest))] else []
    case Reviewed(run) =>
      if SendsBack(OutcomeOf(l, row, run)) then [Request(ReviewStage, FingerprintOf(l, row, run))] else []
    case Noted(attempt) => [Append(attempt)]
  }

  function RequestsIn(l: Limits, start: Row, events: seq<StageRun>): seq<Event>
    decreases |events|
  {
    if events == [] then []
    else
      var before := events[..|events| - 1];
      RequestsIn(l, start, before) + RequestsOf(l, RowAfter(l, start, before), events[|events| - 1])
  }

  /** The stage and fingerprint with which the task was sent round the loop, if it was. */
  predicate LoopsFor(l: Limits, row: Row, e: StageRun, stage: string, fingerprint: Fingerprint) {
    match e
    case Implemented(run) =>
      Step(l, row, e).status == Implementing && stage == ManifestStage && run.Finished? &&
      run.evidence.Insufficient? && ManifestFailure(run.evidence.digest) == fingerprint
    case Reviewed(run) =>
      Looping(Step(l, row, e)) && stage == ReviewStage && FingerprintOf(l, row, run) == fingerprint
    case Noted(_) => false
  }

  function LoopCount(l: Limits, start: Row, events: seq<StageRun>, stage: string, fingerprint: Fingerprint): nat
    decreases |events|
  {
    if events == [] then 0
    else
      var before := events[..|events| - 1];
      LoopCount(l, start, before, stage, fingerprint)
      + (if LoopsFor(l, RowAfter(l, start, before), events[|events| - 1], stage, fingerprint) then 1 else 0)
  }

  lemma OutcomeRecords(l: Limits, row: Row, run: ReviewerRun, outcome: Outcome, findings: seq<Finding>)
    ensures ApplyOutcome(l, row, run, outcome, findings).attempts ==
            if SendsBack(outcome)
            then After(row.attempts, Request(ReviewStage, ReviewFingerprint(outcome, findings, run.snapshotId, l.leq)))
            else row.attempts
  {
  }

  lemma ImplementerRecords(l: Limits, row: Row, run: ImplementerRun)
    ensures var requests := RequestsOf(l, row, Implemented(run));
      AfterImplementer(l, row, run).attempts ==
        if requests == [] then row.attempts else After(row.attempts, requests[0])
  {
  }

  lemma StepRequests(l: Limits, row: Row, e: StageRun)
    ensures var requests := RequestsOf(l, row, e);
      && |requests| <= 1
      && Step(l, row, e).attempts ==
         (if requests == [] then row.attempts else After(row.attempts, requests[0]))
  {
    match e
    case Implemented(run) => ImplementerRecords(l, row, run);
    case Reviewed(run) =>
      OutcomeRecords(l, row, run, OutcomeOf(l, row, run), ReviewOf(row, run).result.findings);
    case Noted(_) =>
  }

  lemma ImplementerLoopGranted(l: Limits, row: Row, run: ImplementerRun)
    requires row.status == Implementing && AfterImplementer(l, row, run).status == Implementing
    ensures RequestsOf(l, row, Implemented(run)) == [Request(ManifestStage, ManifestFailure(run.evidence.digest))]
    ensures Granted(PriorFingerprint(row.attempts, ManifestStage, ManifestFailure(run.evidence.digest)))
  {
  }

  lemma StepGranted(l: Limits, row: Row, e: StageRun, stage: string, fingerprint: Fingerprint)
    requires Enabled(row, e)
    requires LoopsFor(l, row, e, stage, fingerprint)
    ensures RequestsOf(l, row, e) == [Request(stage, fingerprint)]
    ensures Grants(row.attempts, Request(stage, fingerprint), stage, fingerprint)
  {
    match e
    case Implemented(run) => ImplementerLoopGranted(l, row, run);
    case Reviewed(run) =>
      ReviewerLoops(l, row, run);
      OutcomeLoops(l, row, run, OutcomeOf(l, row, run), ReviewOf(row, run).result.findings);
    case Noted(_) =>
  }

  lemma AppendRequests(start: seq<Attempt>, events: seq<Event>, more: seq<Event>, stage: string,
                       fingerprint: Fingerprint)
    requires |more| <= 1
    ensures HistoryAfter(start, events + more) ==
            (if more == [] then HistoryAfter(start, events) else After(HistoryAfter(start, events), more[0]))
    ensures GrantCount(start, events + more, stage, fingerprint) ==
            GrantCount(start, events, stage, fingerprint) +
            (if more != [] && Grants(HistoryAfter(start, events), more[0], stage, fingerprint) then 1 else 0)
  {
    if more == [] {
      assert events + more == events;
    } else {
      assert (events + more)[..|events + more| - 1] == events;
    }
  }

  lemma {:induction false} RunIsGuarded(l: Limits, start: Row, events: seq<StageRun>, stage: string,
                                        fingerprint: Fingerprint)
    requires IsRun(l, start, events)
    ensures RowAfter(l, start, events).attempts == HistoryAfter(start.attempts, RequestsIn(l, start, events))
    ensures LoopCount(l, start, events, stage, fingerprint) <=
            GrantCount(start.attempts, RequestsIn(l, start, events), stage, fingerprint)
    decreases |events|
  {
    if events != [] {
      var before := events[..|events| - 1];
      var e := events[|events| - 1];
      var row := RowAfter(l, start, before);
      RunIsGuarded(l, start, before, stage, fingerprint);
      StepRequests(l, row, e);
      AppendRequests(start.attempts, RequestsIn(l, start, before), RequestsOf(l, row, e), stage, fingerprint);
      if LoopsFor(l, row, e, stage, fingerprint) {
        StepGranted(l, row, e, stage, fingerprint);
      }
    }
  }

  /** A run goes round the loop for one failure in one stage at most once more than operators overrode it. */
  lemma LoopsBoundedByOverrides(l: Limits, start: Row, events: seq<StageRun>, stage: string, fingerprint: Fingerprint)
    requires IsRun(l, start, events)
    ensures LoopCount(l, start, events, stage, fingerprint) <=
            1 + Count(RowAfter(l, start, events).attempts, stage, fingerprint, true)
  {
    RunIsGuarded(l, start, events, stage, fingerprint);
    GrantsBounded(start.attempts, RequestsIn(l, start, events), stage, fingerprint);
  }

  lemma StepOnlyAppends(l: Limits, row: Row, e: StageRun, stage: string, fingerprint: Fingerprint, o: bool)
    ensures Count(row.attempts, stage, fingerprint, o) <= Count(Step(l, row, e).attempts, stage, fingerprint, o)
  {
    StepRequests(l, row, e);
    var requests := RequestsOf(l, row, e);
    if requests != [] {
      var r := requests[0];
      CountAppend(row.attempts, if r.Request? then Recorded(r.stage, r.fingerprint) else r.attempt, stage, fingerprint,
                  o);
    }
  }

  lemma NextRow(l: Limits, start: Row, events: seq<StageRun>, i: nat)
    requires i < |events|
    ensures RowAfter(l, start, events[..i + 1]) == Step(l, RowAfter(l, start, events[..i]), events[i])
  {
    assert events[..i + 1][..i] == events[..i];
  }

  lemma LastRow(l: Limits, start: Row, events: seq<StageRun>) returns (row: Row)
    requires events != []
    ensures row == RowAfter(l, start, Init(events)) && RowAfter(l, start, events) == Step(l, row, Last(events))
  {
    row := RowAfter(l, start, Init(events));
  }

  lemma {:induction false} RunOnlyAppends(l: Limits, start: Row, events: seq<StageRun>, i: nat, stage: string,
                                          fingerprint: Fingerprint, o: bool)
    requires i <= |events|
    ensures Count(RowAfter(l, start, events[..i]).attempts, stage, fingerprint, o) <=
            Count(RowAfter(l, start, events).attempts, stage, fingerprint, o)
    decreases |events|
  {
    if i == |events| {
      assert events[..i] == events;
    } else {
      var row := LastRow(l, start, events);
      RunOnlyAppends(l, start, Init(events), i, stage, fingerprint, o);
      assert Init(events)[..i] == events[..i];
      StepOnlyAppends(l, row, Last(events), stage, fingerprint, o);
    }
  }

  /** The i-th event is a review that sends the task round the loop. */
  ghost predicate SentBackAt(l: Limits, start: Row, events: seq<StageRun>, i: nat) {
    i < |events| && events[i].Reviewed? && Enabled(RowAfter(l, start, events[..i]), events[i]) &&
    Looping(RowAfter(l, start, events[..i + 1]))
  }

  /** How the review sends the task back, read off the row after it. */
  ghost function WayBack(after: Row): Outcome {
    if after.status == Implementing then ReworkRequested else ReviewRetryRequested
  }

  /** The fingerprint of a review that sends the task back, read off the row after it. */
  ghost function PrintAt(l: Limits, start: Row, events: seq<StageRun>, i: nat): Fingerprint
    requires SentBackAt(l, start, events, i)
  {
    var after := RowAfter(l, start, events[..i + 1]);
    ReviewFingerprint(WayBack(after), after.findings, events[i].reviewer.snapshotId, l.leq)
  }

  lemma SentBackPrints(l: Limits, row: Row, run: ReviewerRun)
    requires row.status == InReview && Looping(AfterReviewer(l, row, run))
    ensures var after := AfterReviewer(l, row, run);
      FingerprintOf(l, row, run) == ReviewFingerprint(WayBack(after), after.findings, run.snapshotId, l.leq)
    ensures Granted(PriorFingerprint(row.attempts, ReviewStage, FingerprintOf(l, row, run)))
    ensures AfterReviewer(l, row, run).attempts ==
            row.attempts + [Recorded(ReviewStage, FingerprintOf(l, row, run))]
  {
    ReviewerLoops(l, row, run);
    OutcomeLoops(l, row, run, OutcomeOf(l, row, run), ReviewOf(row, run).result.findings);
    OutcomeRecords(l, row, run, OutcomeOf(l, row, run), ReviewOf(row, run).result.findings);
  }

  /** A review that sends the task back puts its fingerprint on record. */
  lemma SentBackRecords(l: Limits, start: Row, events: seq<StageRun>, i: nat)
    requires SentBackAt(l, start, events, i)
    ensures Granted(PriorFingerprint(RowAfter(l, start, events[..i]).attempts, ReviewStage, PrintAt(l, start, events, i)))
    ensures Count(RowAfter(l, start, events[..i + 1]).attempts, ReviewStage, PrintAt(l, start, events, i), false) >= 1
  {
    var row, run := RowAfter(l, start, events[..i]), events[i].reviewer;
    NextRow(l, start, events, i);
    SentBackPrints(l, row, run);
    CountAppend(row.attempts, Recorded(ReviewStage, FingerprintOf(l, row, run)), ReviewStage,
                FingerprintOf(l, row, run), false);
  }

  lemma RecordedStays(l: Limits, start: Row, events: seq<StageRun>, i: nat, j: nat, fingerprint: Fingerprint)
    requires i <= j <= |events|
    requires Count(RowAfter(l, start, events[..i]).attempts, ReviewStage, fingerprint, false) >= 1
    ensures Count(RowAfter(l, start, events[..j]).attempts, ReviewStage, fingerprint, false) >= 1
  {
    assert events[..j][..i] == events[..i];
    RunOnlyAppends(l, start, events[..j], i, ReviewStage, fingerprint, false);
  }

  ghost predicate NoOverrides(row: Row) {
    forall fingerprint :: Count(row.attempts, ReviewStage, fingerprint, true) == 0
  }

  lemma GrantedIsNew(row: Row, fingerprint: Fingerprint)
    requires NoOverrides(row) && Granted(PriorFingerprint(row.attempts, ReviewStage, fingerprint))
    ensures Count(row.attempts, ReviewStage, fingerprint, false) == 0
  {
    GrantedIff(row.attempts, ReviewStage, fingerprint);
    assert Count(row.attempts, ReviewStage, fingerprint, true) == 0;
  }

  lemma PrintsDiffer(l: Limits, start: Row, events: seq<StageRun>, i: nat, j: nat)
    requires i < j && SentBackAt(l, start, events, i) && SentBackAt(l, start, events, j)
    requires NoOverrides(RowAfter(l, start, events[..j]))
    ensures PrintAt(l, start, events, i) != PrintAt(l, start, events, j)
  {
    SentBackRecords(l, start, events, i);
    RecordedStays(l, start, events, i + 1, j, PrintAt(l, start, events, i));
    SentBackRecords(l, start, events, j);
    GrantedIsNew(RowAfter(l, start, events[..j]), PrintAt(l, start, events, j));
  }

  /**
    Without overrides, no two reviews send the task back the same way under one snapshot with the same
    findings: their contents differ, and as multisets when no two different ones of a review tie.
   */
  lemma SentBackFindingsDiffer(l: Limits, start: Row, events: seq<StageRun>, i: nat, j: nat)
    requires i < j && SentBackAt(l, start, events, i) && SentBackAt(l, start, events, j)
    requires RowAfter(l, start, events[..i + 1]).status == RowAfter(l, start, events[..j + 1]).status
    requires events[i].reviewer.snapshotId == events[j].reviewer.snapshotId
    requires NoOverrides(RowAfter(l, start, events[..j]))
    ensures var a, b := RowAfter(l, start, events[..i + 1]).findings, RowAfter(l, start, events[..j + 1]).findings;
      && Contents(a) != Contents(b)
      && (TotalPreorder(l.leq) && NoTies(Contents(a), l.leq) ==> multiset(Contents(a)) != multiset(Contents(b)))
  {
    PrintsDiffer(l, start, events, i, j);
    var before, after := RowAfter(l, start, events[..i + 1]), RowAfter(l, start, events[..j + 1]);
    var snapshotId := events[i].reviewer.snapshotId;
    EqualFingerprints(WayBack(before), before.findings, snapshotId, WayBack(after), after.findings, snapshotId, l.leq);
  }
}
