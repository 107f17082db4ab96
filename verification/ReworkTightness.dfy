/**
  The bounds on a rework run are exact: for all limits and from every fresh task there is a run with exactly
  that many stages. Each of its reviews is a structured one that closes the previous blocker with evidence
  and reports a new one.
 */
module ReworkTightness {
  import opened Collections
  import opened ReviewText
  import opened ReviewFindings
  import opened ReviewGate
  import opened ReviewStreaks
  import opened FailureFingerprint
  import opened FingerprintGuard
  import opened ReworkProtocol
  import opened ReworkRuns

  // ---- Failures that were never recorded ----

  function Name(n: nat): (s: string)
    ensures |s| == n && forall i :: 0 <= i < n ==> s[i] == 'x'
  {
    if n == 0 then "" else Name(n - 1) + "x"
  }

  /** What keeps a fingerprint apart from those made of longer names. */
  function Size(fingerprint: Fingerprint): nat {
    match fingerprint
    case ManifestFailure(digest) => |digest|
    case ReviewFailure(_, findings, _) => if findings == [] then 0 else |findings[0].text|
  }

  /** Every recorded fingerprint has a size below n. */
  ghost predicate Shorter(attempts: seq<Attempt>, n: nat) {
    forall i :: 0 <= i < |attempts| && attempts[i].fingerprint.Some? ==> Size(attempts[i].fingerprint.value) < n
  }

  lemma {:induction false} SomeSizeIsUnused(attempts: seq<Attempt>) returns (n: nat)
    ensures Shorter(attempts, n) && n >= 1
  {
    if attempts == [] {
      n := 1;
    } else {
      var m := SomeSizeIsUnused(attempts[1..]);
      var first := attempts[0].fingerprint;
      n := if first.Some? && Size(first.value) >= m then Size(first.value) + 1 else m;
      forall i | 0 <= i < |attempts| && attempts[i].fingerprint.Some?
        ensures Size(attempts[i].fingerprint.value) < n
      {
        if i > 0 {
          assert attempts[i] == attempts[1..][i - 1];
        }
      }
    }
  }

  lemma {:induction false} NewSizeCountsZero(attempts: seq<Attempt>, fingerprint: Fingerprint, stage: string, o: bool)
    requires Shorter(attempts, Size(fingerprint))
    ensures Count(attempts, stage, fingerprint, o) == 0
  {
    if attempts != [] {
      NewSizeCountsZero(attempts[1..], fingerprint, stage, o);
    }
  }

  lemma NewSizeIsGranted(row: Row, fingerprint: Fingerprint, stage: string)
    requires Shorter(row.attempts, Size(fingerprint))
    ensures !SeenBefore(row, stage, fingerprint)
    ensures Shorter(row.attempts + [Recorded(stage, fingerprint)], Size(fingerprint) + 1)
  {
    NewSizeCountsZero(row.attempts, fingerprint, stage, false);
  }

  // ---- A review that closes what was there and finds something new ----

  function Blocker(n: nat): Finding {
    Finding(Name(n), "code_review", Name(n), None, None, NoDetails, None, None, None)
  }

  /** Nothing is a parse error or for an operator, and every closure note is evidence. */
  function WorkingContext(f: Finding): Context {
    PlainContext(f).(parseError := _ => false, closureNote := _ => true)
  }

  function ClosedReport(f: Finding): PreviousFinding {
    PreviousFinding(f.id, f.source, Resolved, "The check in `src/review.ts:12` now covers it.", None)
  }

  function ClosedReports(previousFindings: seq<Finding>): seq<PreviousFinding> {
    Map(previousFindings, (f: Finding) => ClosedReport(f))
  }

  function BusyOutput(previousFindings: seq<Finding>, iteration: int, n: nat): Parsed {
    Parsed(FullReReview, iteration, ClosedReports(previousFindings), [Blocker(n)])
  }

  function BusyRound(previousFindings: seq<Finding>, iteration: int, n: nat): Round {
    Round(WorkingContext(Blocker(n)), FullReReview, Structured(BusyOutput(previousFindings, iteration, n)), [])
  }

  lemma {:induction false} KeepsAll<T(!new)>(s: seq<T>, keep: T -> bool)
    requires forall x :: x in s ==> keep(x)
    ensures Filter(s, keep) == s
  {
    if s != [] {
      KeepsAll(s[1..], keep);
    }
  }

  lemma {:induction false} KeepsNone<T(!new)>(s: seq<T>, keep: T -> bool)
    requires forall x :: x in s ==> !keep(x)
    ensures Filter(s, keep) == []
  {
    if s != [] {
      KeepsNone(s[1..], keep);
    }
  }

  lemma {:induction false} NothingPreserved(ctx: Context, input: Input, reports: seq<PreviousFinding>)
    requires forall t :: ctx.strictCode(t).None?
    ensures Preserved(ctx, input, [], reports) == []
  {
    if reports != [] {
      NothingPreserved(ctx, input, reports[1..]);
    }
  }

  lemma NothingReported(previousFindings: seq<Finding>, iteration: int, n: nat)
    ensures ReportedBlocking(BusyOutput(previousFindings, iteration, n)) == []
    ensures StillBlockingFindings(BusyOutput(previousFindings, iteration, n)) == []
  {
    KeepsNone(ClosedReports(previousFindings), (f: PreviousFinding) => BlockingStatus(f.status));
  }

  lemma OnlyNewBlocker(previousFindings: seq<Finding>, iteration: int, n: nat)
    ensures ActionableBlockers(WorkingContext(Blocker(n)), Input(FullReReview, iteration, previousFindings),
                               BusyOutput(previousFindings, iteration, n), []) == [Blocker(n)]
  {
    var ctx, b := WorkingContext(Blocker(n)), Blocker(n);
    var none: seq<Finding> := [];
    ConcatStep(none, [none, [b], none]);
    ConcatStep(none, [[b], none]);
    ConcatStep([b], [none]);
    ConcatStep(none, []);
    assert [none] + [none, [b], none] == [none, none, [b], none];
    assert [none] + [[b], none] == [none, [b], none];
    assert [[b]] + [none] == [[b], none];
    assert [none] + [] == [none];
    MergeSingle([none, none, [b], none], b);
    NothingReported(previousFindings, iteration, n);
    NothingPreserved(ctx, Input(FullReReview, iteration, previousFindings), ClosedReports(previousFindings));
    FilterSingle(b, ctx.actionable);
  }

  /** At most one finding was carried, and its name is shorter than n. */
  ghost predicate ShortCarried(findings: seq<Finding>, n: nat) {
    |findings| <= 1 && forall f :: f in findings ==> |f.id| < n
  }

  lemma ClosedReportsAreTrusted(previousFindings: seq<Finding>, iteration: int, n: nat)
    requires |previousFindings| <= 1
    ensures Trustworthy(WorkingContext(Blocker(n)), Input(FullReReview, iteration, previousFindings),
                        BusyOutput(previousFindings, iteration, n))
  {
    if previousFindings != [] {
      var f := previousFindings[0];
      assert previousFindings == [f] && ClosedReports(previousFindings) == [ClosedReport(f)];
      assert LastById([f], f.id) == Some(f);
      assert ReportIds([ClosedReport(f)]) == {f.id} == IdSet([f]);
    }
  }

  lemma NewBlockerDecision(previousFindings: seq<Finding>, iteration: int, n: nat)
    requires ShortCarried(previousFindings, n)
    ensures var r := Decide(WorkingContext(Blocker(n)), Input(FullReReview, iteration, previousFindings), true, {},
                            [Blocker(n)]);
      r.status == RequestChanges && r.findings == [FirstSighting(Blocker(n), iteration)]
  {
    var ctx, b := WorkingContext(Blocker(n)), Blocker(n);
    assert b.id !in IdSet(previousFindings);
    assert Enrich([b], previousFindings, iteration) == [FirstSighting(b, iteration)];
    FilterSingle(FirstSighting(b, iteration), (f: Finding) => ctx.manualText(f.text));
    assert FirstSighting(b, iteration) in Enrich([b], previousFindings, iteration);
    assert Stated(FirstSighting(b, iteration), ctx.normalize) == FirstSighting(b, iteration);
  }

  /** A round that asks for changes, for the new blocker alone. */
  lemma BusyRoundFindsOne(previousFindings: seq<Finding>, iteration: int, n: nat) returns (round: Round)
    requires ShortCarried(previousFindings, n)
    ensures var r := ReviewOnce(round, previousFindings, iteration);
      r.status == RequestChanges && r.findings == [FirstSighting(Blocker(n), iteration)]
  {
    round := BusyRound(previousFindings, iteration, n);
    var ctx, input := WorkingContext(Blocker(n)), Input(FullReReview, iteration, previousFindings);
    KeepsAll(previousFindings, (f: Finding) => !ctx.parseError(f));
    assert AskedAbout(ctx, input) == input;
    OnlyNewBlocker(previousFindings, iteration, n);
    NothingReported(previousFindings, iteration, n);
    assert ReportIds([]) == {};
    ClosedReportsAreTrusted(previousFindings, iteration, n);
    NewBlockerDecision(previousFindings, iteration, n);
  }

  /** The review finds exactly one thing, seen for the first time, and it is no reason to repeat the review. */
  ghost predicate FindsOne(row: Row, run: ReviewerRun, f: Finding) {
    && ReviewOf(row, run).result.status == RequestChanges && ReviewOf(row, run).result.findings == [f]
    && f.streak == Some(1) && !run.retryText(f)
  }

  lemma BusyReview(row: Row, n: nat) returns (run: ReviewerRun)
    requires ShortCarried(row.findings, n)
    ensures FindsOne(row, run, FirstSighting(Blocker(n), row.reviewIterationCount + 1)) && run.snapshotId == None
  {
    hide ReviewOnce;
    var k := row.reviewIterationCount + 1;
    var round := BusyRoundFindsOne(row.findings, k, n);
    run := ReviewerRun(round, _ => false, None, Sufficient, false);
    assert ReviewOf(row, run) == Happened(round, row.findings, k);
  }

  lemma FreshChangesBecomeRework(settings: Settings, result: GateResult, k: int, f: Finding)
    requires result.status == RequestChanges && result.findings == [f] && f.streak == Some(1)
    requires settings.stallThreshold > 1 && k < settings.maxIterations && !settings.retryText(f)
    ensures HandleGate(settings, result, k) == ReworkRequested
  {
    StalledIff(result.findings, settings.stallThreshold);
    assert f in result.findings;
  }

  lemma NameIsTrimmed(n: nat)
    ensures Trim(Name(n)) == Name(n)
  {
    TrimTrimmed(Name(n));
  }

  lemma BlockerFingerprintSize(outcome: Outcome, n: nat, iteration: int, leq: Order)
    ensures Size(ReviewFingerprint(outcome, [FirstSighting(Blocker(n), iteration)], None, leq)) == n
  {
    var f := FirstSighting(Blocker(n), iteration);
    NameIsTrimmed(n);
    assert Contents([f]) == [ContentOf(f)];
    assert Sorted([ContentOf(f)], leq) == Insert(ContentOf(f), Sorted([], leq), leq);
  }

  // ---- Runs, one stage at a time ----

  lemma AppendStage(l: Limits, start: Row, events: seq<StageRun>, e: StageRun)
    requires IsRun(l, start, events) && Enabled(RowAfter(l, start, events), e)
    ensures IsRun(l, start, events + [e])
    ensures RowAfter(l, start, events + [e]) == Step(l, RowAfter(l, start, events), e)
    ensures ReviewerRuns(events + [e]) == ReviewerRuns(events) + (if e.Reviewed? then 1 else 0)
    ensures ImplementerRuns(events + [e]) == ImplementerRuns(events) + (if e.Implemented? then 1 else 0)
  {
    assert (events + [e])[..|events + [e]| - 1] == events;
  }

  /** Implementing with the given counters, at most one finding carried, and names from n on unused. */
  ghost predicate BusyRow(row: Row, reviewed: nat, retries: nat, n: nat) {
    && row.status == Implementing && row.reviewIterationCount == reviewed && row.retryCount == retries
    && Shorter(row.attempts, n) && ShortCarried(row.findings, n)
  }

  /** The run so far has so many stages and leaves such a row. */
  ghost predicate Busy(l: Limits, start: Row, events: seq<StageRun>, reviewed: nat, implemented: nat, retries: nat,
                       n: nat)
  {
    && IsRun(l, start, events)
    && ReviewerRuns(events) == reviewed && ImplementerRuns(events) == implemented
    && BusyRow(RowAfter(l, start, events), reviewed, retries, n)
  }

  lemma EvidenceStep(l: Limits, row: Row, reviewed: nat, retries: nat, n: nat)
    requires BusyRow(row, reviewed, retries, n) && retries + 1 <= EvidenceLimit(l)
    ensures BusyRow(AfterImplementer(l, row, Finished(false, Insufficient(true, false, Name(n)))), reviewed,
                    retries + 1, n + 1)
  {
    NewSizeIsGranted(row, ManifestFailure(Name(n)), ManifestStage);
  }

  /** Evidence reworks until the limit. */
  lemma {:induction false} ReworkToLimit(l: Limits, start: Row, events: seq<StageRun>, reviewed: nat, implemented: nat,
                                         retries: nat, n: nat)
    returns (more: seq<StageRun>, m: nat)
    requires Busy(l, start, events, reviewed, implemented, retries, n)
    requires retries <= RunsPerReview(l) - 1
    ensures Busy(l, start, more, reviewed, implemented + (RunsPerReview(l) - 1 - retries), RunsPerReview(l) - 1, m)
    decreases RunsPerReview(l) - retries
  {
    if retries == RunsPerReview(l) - 1 {
      more, m := events, n;
    } else {
      var run := Finished(false, Insufficient(true, false, Name(n)));
      EvidenceStep(l, RowAfter(l, start, events), reviewed, retries, n);
      AppendStage(l, start, events, Implemented(run));
      more, m := ReworkToLimit(l, start, events + [Implemented(run)], reviewed, implemented + 1, retries + 1, n + 1);
    }
  }

  lemma HandOffStep(l: Limits, row: Row, reviewed: nat, retries: nat, n: nat)
    requires BusyRow(row, reviewed, retries, n)
    ensures var r := AfterImplementer(l, row, Finished(false, Sufficient));
      && r.status == InReview && r.reviewIterationCount == reviewed
      && Shorter(r.attempts, n) && ShortCarried(r.findings, n)
  {
  }

  lemma SendBackStep(row: Row, fingerprint: Fingerprint, findings: seq<Finding>, n: nat)
    requires Shorter(row.attempts, n) && Size(fingerprint) == n && ShortCarried(findings, n + 1)
    requires row.reviewIterationCount >= 0
    ensures BusyRow(SendBack(row, Implementing, fingerprint, findings), row.reviewIterationCount + 1, 0, n + 1)
  {
    NewSizeIsGranted(row, fingerprint, ReviewStage);
  }

  /** A review that found one new thing is a rework request below the limit. */
  lemma FoundOneIsRework(l: Limits, row: Row, run: ReviewerRun, f: Finding)
    requires FindsOne(row, run, f)
    requires row.reviewIterationCount + 1 < ReviewLimit(l) && l.stallThreshold > 1
    ensures OutcomeOf(l, row, run) == ReworkRequested
  {
    FreshChangesBecomeRework(SettingsOf(l, run), ReviewOf(row, run).result, row.reviewIterationCount + 1, f);
  }

  lemma AfterFoundOne(l: Limits, row: Row, run: ReviewerRun, f: Finding)
    requires FindsOne(row, run, f)
    requires row.reviewIterationCount + 1 < ReviewLimit(l) && l.stallThreshold > 1
    ensures AfterReviewer(l, row, run) ==
            SendBack(row, Implementing, ReviewFingerprint(ReworkRequested, [f], run.snapshotId, l.leq), [f])
  {
    FoundOneIsRework(l, row, run, f);
  }

  lemma ReviewStep(l: Limits, row: Row, run: ReviewerRun, n: nat)
    requires Shorter(row.attempts, n) && row.reviewIterationCount >= 0
    requires FindsOne(row, run, FirstSighting(Blocker(n), row.reviewIterationCount + 1)) && run.snapshotId == None
    requires row.reviewIterationCount + 1 < ReviewLimit(l) && l.stallThreshold > 1
    ensures BusyRow(AfterReviewer(l, row, run), row.reviewIterationCount + 1, 0, n + 1)
  {
    var k := row.reviewIterationCount + 1;
    var f := FirstSighting(Blocker(n), k);
    AfterFoundOne(l, row, run, f);
    BlockerFingerprintSize(ReworkRequested, n, k, l.leq);
    SendBackStep(row, ReviewFingerprint(ReworkRequested, [f], None, l.leq), [f], n);
  }

  /** The handoff. */
  lemma HandOffRun(l: Limits, start: Row, events: seq<StageRun>, reviewed: nat, implemented: nat, retries: nat, n: nat)
    returns (more: seq<StageRun>, row: Row)
    requires Busy(l, start, events, reviewed, implemented, retries, n)
    ensures IsRun(l, start, more) && row == RowAfter(l, start, more)
    ensures ReviewerRuns(more) == reviewed && ImplementerRuns(more) == implemented + 1
    ensures row.status == InReview && row.reviewIterationCount == reviewed
    ensures Shorter(row.attempts, n) && ShortCarried(row.findings, n)
  {
    var finish := Implemented(Finished(false, Sufficient));
    HandOffStep(l, RowAfter(l, start, events), reviewed, retries, n);
    AppendStage(l, start, events, finish);
    more := events + [finish];
    row := RowAfter(l, start, more);
  }

  /** One round: every evidence rework, the handoff, and the review. */
  lemma BusyRoundRuns(l: Limits, start: Row, events: seq<StageRun>, reviewed: nat, implemented: nat, n: nat)
    returns (more: seq<StageRun>, m: nat)
    requires Busy(l, start, events, reviewed, implemented, 0, n)
    ensures IsRun(l, start, more)
    ensures ReviewerRuns(more) == reviewed + 1 && ImplementerRuns(more) == implemented + RunsPerReview(l)
    ensures reviewed + 1 < ReviewerBound(l) ==>
              Busy(l, start, more, reviewed + 1, implemented + RunsPerReview(l), 0, m)
  {
    var before, row;
    more, m := ReworkToLimit(l, start, events, reviewed, implemented, 0, n);
    before, row := HandOffRun(l, start, more, reviewed, implemented + RunsPerReview(l) - 1, RunsPerReview(l) - 1, m);
    var run := BusyReview(row, m);
    if reviewed + 1 < ReviewerBound(l) {
      ReviewStep(l, row, run, m);
    }
    AppendStage(l, start, before, Reviewed(run));
    more, m := before + [Reviewed(run)], m + 1;
  }

  lemma OneMoreRound(k: nat, per: nat)
    ensures k * per + per == (k + 1) * per
  {
  }

  lemma {:induction false} BusyRounds(l: Limits, start: Row, k: nat, per: nat) returns (events: seq<StageRun>, n: nat)
    requires Fresh(start) && start.status == Implementing
    requires k < ReviewerBound(l) && per == RunsPerReview(l)
    ensures Busy(l, start, events, k, k * per, 0, n)
  {
    if k == 0 {
      events := [];
      n := SomeSizeIsUnused(start.attempts);
    } else {
      var before, m := BusyRounds(l, start, k - 1, per);
      OneMoreRound(k - 1, per);
      events, n := BusyRoundRuns(l, start, before, k - 1, (k - 1) * per, m);
    }
  }

  /** Both bounds are reached at once, for all limits and thresholds and whatever was recorded before. */
  lemma BoundsAreReached(l: Limits, start: Row) returns (events: seq<StageRun>)
    requires Fresh(start) && start.status == Implementing
    ensures IsRun(l, start, events)
    ensures ReviewerRuns(events) == ReviewerBound(l)
    ensures ImplementerRuns(events) == ReviewerBound(l) * RunsPerReview(l)
  {
    var k, per := ReviewerBound(l) - 1, RunsPerReview(l);
    var before, n := BusyRounds(l, start, k, per);
    var m;
    OneMoreRound(k, per);
    events, m := BusyRoundRuns(l, start, before, k, k * per, n);
  }
}
