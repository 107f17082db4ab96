/**
  What the review gate guarantees about one decision: what survives, how the counts relate, and what
  success takes (packages/agent/src/reviewGate.ts:736-1582).
 */
module ReviewGateProperties {
  import opened Collections
  import opened ReviewFindings
  import opened ReviewGate

  // ---- Counting ----

  lemma {:induction false} FilterSplit(findings: seq<Finding>, previousFindings: seq<Finding>)
    ensures |findings| == |KnownOnes(findings, previousFindings)| + |NewOnes(findings, previousFindings)|
  {
    if findings != [] {
      FilterSplit(findings[1..], previousFindings);
    }
  }

  lemma {:induction false} FilterDistinct(findings: seq<Finding>, keep: Finding -> bool)
    requires DistinctIds(findings)
    ensures DistinctIds(Filter(findings, keep))
  {
    if findings != [] {
      FilterDistinct(findings[1..], keep);
      forall f | f in Filter(findings[1..], keep)
        ensures f.id != findings[0].id
      {
        assert f in findings[1..];
      }
    }
  }

  lemma KnownIds(findings: seq<Finding>, previousFindings: seq<Finding>)
    requires DistinctIds(findings)
    ensures IdSet(KnownOnes(findings, previousFindings)) == IdSet(findings) * IdSet(previousFindings)
    ensures |KnownOnes(findings, previousFindings)| == |IdSet(findings) * IdSet(previousFindings)|
  {
    var known := KnownOnes(findings, previousFindings);
    FilterDistinct(findings, (f: Finding) => f.id in IdSet(previousFindings));
    forall id | id in IdSet(findings) * IdSet(previousFindings)
      ensures id in IdSet(known)
    {
      var f :| f in findings && f.id == id;
      assert f in known;
    }
    DistinctIdsCount(known);
  }

  lemma StatedIds(ctx: Context, findings: seq<Finding>)
    ensures IdSet(ToState(ctx, findings)) == IdSet(findings)
    ensures DistinctIds(ToState(ctx, findings)) <==> DistinctIds(findings)
  {
    SameIdsPointwise(ToState(ctx, findings), findings);
  }

  lemma CarriedIds(ctx: Context, findings: seq<Finding>, input: Input)
    ensures IdSet(Carried(ctx, findings, input)) == IdSet(findings)
    ensures DistinctIds(Carried(ctx, findings, input)) <==> DistinctIds(findings)
  {
    hide IdSet, DistinctIds;
    EnrichIds(findings, input.previousFindings, input.iteration);
    StatedIds(ctx, Enrich(findings, input.previousFindings, input.iteration));
  }

  // ---- Paths that keep every previous finding ----

  lemma PreviousInMerge(previousFindings: seq<Finding>, groups: seq<seq<Finding>>)
    ensures IdSet(previousFindings) <= IdSet(Merge([previousFindings] + groups))
    ensures DistinctIds(Merge([previousFindings] + groups))
  {
    var all := [previousFindings] + groups;
    MergeIds(all);
    ConcatIds(all, 0);
  }

  /** Every previous finding is kept; the total is exact when the previous ids were distinct, and only then. */
  lemma KeepAllKeeps(ctx: Context, input: Input, current: seq<seq<Finding>>, status: GateStatus)
    ensures var r := KeepAll(ctx, input, current, status);
      && r.status == status
      && IdSet(input.previousFindings) <= IdSet(r.findings)
      && r.metrics.total == |r.findings|
      && r.metrics.total == |IdSet(input.previousFindings)| + r.metrics.added
      && r.metrics.total <= r.metrics.still + r.metrics.added
      && (r.metrics.total == r.metrics.still + r.metrics.added <==> DistinctIds(input.previousFindings))
  {
    var merged := Merge([input.previousFindings] + current);
    PreviousInMerge(input.previousFindings, current);
    FilterSplit(merged, input.previousFindings);
    KnownIds(merged, input.previousFindings);
    assert IdSet(merged) * IdSet(input.previousFindings) == IdSet(input.previousFindings);
    DistinctIdsCount(input.previousFindings);
    CarriedIds(ctx, merged, input);
  }

  /** The shapes of output that cannot prove a previous finding closed. */
  predicate CannotClose(review: Review, input: Input) {
    review.ContractFailure? || review.Unparseable? || (review.Unstructured? && input.previousFindings != [])
  }

  /** Nothing that was there is gone, and the total counts the old and the new exactly when the old ids differed. */
  ghost predicate AllThere(previousFindings: seq<Finding>, r: GateResult) {
    && IdSet(previousFindings) <= IdSet(r.findings)
    && (r.metrics.total == r.metrics.still + r.metrics.added <==> DistinctIds(previousFindings))
  }

  lemma ContractFailureKeeps(ctx: Context, input: Input, specialized: seq<Finding>, deterministic: seq<Finding>)
    ensures var r := Evaluate(ctx, input, ContractFailure(specialized), deterministic);
      && AllThere(input.previousFindings, r)
      && (r.status == Success ==> input.previousFindings == [] && ctx.sidecarsClean)
  {
    KeepAllKeeps(ctx, input, [[ctx.contractFinding], specialized, deterministic],
                 ContractHandoff(ctx, input, specialized, deterministic).status);
  }

  lemma ParseErrorKeeps(ctx: Context, input: Input, error: Finding, deterministic: seq<Finding>)
    ensures var r := Evaluate(ctx, input, Unparseable(error), deterministic);
      AllThere(input.previousFindings, r) && r.status != Success
  {
    hide IdSet, DistinctIds;
    KeepAllKeeps(ctx, input, [[error], deterministic], ParseErrorDecision(ctx, input, error, deterministic).status);
  }

  lemma UnstructuredKeeps(ctx: Context, input: Input, extracted: seq<Finding>, deterministic: seq<Finding>)
    requires input.previousFindings != []
    ensures var r := Evaluate(ctx, input, Unstructured(extracted), deterministic);
      AllThere(input.previousFindings, r) && r.status != Success
  {
    hide KeepAll, IdSet, DistinctIds;
    KeepAllKeeps(ctx, input, [Filter(Merge([extracted, deterministic]), ctx.actionable)],
                 ManualReview(MalformedFallback));
  }

  /**
    After a parse error, a contract failure or unstructured output, no previous finding is lost,
    and the review passes only when there was none and the failure is a recoverable one.
   */
  lemma PreviousFindingsSurvive(ctx: Context, input: Input, review: Review, deterministic: seq<Finding>)
    requires CannotClose(review, input)
    ensures var r := Evaluate(ctx, input, review, deterministic);
      && IdSet(input.previousFindings) <= IdSet(r.findings)
      && (r.metrics.total == r.metrics.still + r.metrics.added <==> DistinctIds(input.previousFindings))
      && (r.status == Success ==> review.ContractFailure? && input.previousFindings == [] && ctx.sidecarsClean)
  {
    hide Evaluate, IdSet, DistinctIds;
    match review
    case ContractFailure(specialized) => ContractFailureKeeps(ctx, input, specialized, deterministic);
    case Unparseable(error) => ParseErrorKeeps(ctx, input, error, deterministic);
    case Unstructured(extracted) => UnstructuredKeeps(ctx, input, extracted, deterministic);
    case _ =>
  }

  // ---- The structured path ----

  lemma ActionableDistinct(ctx: Context, input: Input, parsed: Parsed, deterministic: seq<Finding>)
    ensures DistinctIds(ActionableBlockers(ctx, input, parsed, deterministic))
  {
    MergeIds([StillBlockingFindings(parsed), Preserved(ctx, input, deterministic, parsed.previousFindings),
              parsed.blockingFindings, deterministic]);
    FilterDistinct(StructuredBlockers(ctx, input, parsed, deterministic), ctx.actionable);
  }

  lemma StillCount(reported: set<string>, kept: set<string>)
    ensures |kept| <= |reported + kept|
    ensures |kept| == |reported + kept| <==> reported <= kept
  {
    SubsetCardinality(kept, reported + kept);
    if reported <= kept {
      assert reported + kept == kept;
    }
  }

  /** total = still + new exactly when every finding reported blocking is among the actionable ones. */
  lemma StructuredCounts(input: Input, reported: set<string>, actionable: seq<Finding>)
    requires DistinctIds(actionable)
    ensures var m := StructuredMetrics(input, reported, actionable);
      && m.total <= m.still + m.added
      && (m.total == m.still + m.added <==> reported <= IdSet(actionable) * IdSet(input.previousFindings))
  {
    FilterSplit(actionable, input.previousFindings);
    KnownIds(actionable, input.previousFindings);
    StillCount(reported, IdSet(actionable) * IdSet(input.previousFindings));
  }

  lemma EscalateKeepsMetrics(ctx: Context, input: Input, metrics: Metrics, findings: seq<Finding>, otherwise: GateStatus)
    requires otherwise != Success
    ensures var r := Escalate(ctx, input, metrics, findings, otherwise);
      && r.metrics == metrics && r.status != Success
      && (r.status == RequestChanges ==>
          r.findings == Carried(ctx, findings, input) && otherwise == RequestChanges)
  {
  }

  lemma DecidedTotalBounded(ctx: Context, input: Input, trusted: bool, reported: set<string>, actionable: seq<Finding>)
    requires DistinctIds(actionable)
    ensures var m := Decide(ctx, input, trusted, reported, actionable).metrics; m.total <= m.still + m.added
  {
    if !trusted {
      KeepAllKeeps(ctx, input, [actionable], ManualReview(MalformedFallback));
    } else {
      StructuredCounts(input, reported, actionable);
      EscalateKeepsMetrics(ctx, input, StructuredMetrics(input, reported, actionable), actionable, RequestChanges);
      EscalateKeepsMetrics(ctx, input, StructuredMetrics(input, reported, actionable), actionable,
                           ManualReview(NewBlockersAfterRework));
    }
  }

  /** On the structured path the total never exceeds still-blocking plus new. */
  lemma StructuredTotalBounded(ctx: Context, input: Input, parsed: Parsed, deterministic: seq<Finding>)
    ensures var m := StructuredDecision(ctx, input, parsed, deterministic).metrics; m.total <= m.still + m.added
  {
    ActionableDistinct(ctx, input, parsed, deterministic);
    DecidedTotalBounded(ctx, input, Trustworthy(ctx, input, parsed), ReportIds(ReportedBlocking(parsed)),
                        ActionableBlockers(ctx, input, parsed, deterministic));
  }

  /** What the final status of the structured path says about how it was reached. */
  lemma DecidedStatus(ctx: Context, input: Input, trusted: bool, reported: set<string>, actionable: seq<Finding>)
    ensures var r := Decide(ctx, input, trusted, reported, actionable);
      && (r.status == Success <==> trusted && actionable == [] && !ctx.needsEvidence)
      && (r.status == RequestChanges ==> trusted && r.findings == Carried(ctx, actionable, input))
  {
    var metrics := StructuredMetrics(input, reported, actionable);
    EscalateKeepsMetrics(ctx, input, metrics, actionable, RequestChanges);
    EscalateKeepsMetrics(ctx, input, metrics, actionable, ManualReview(NewBlockersAfterRework));
  }

  lemma StructuredStatus(ctx: Context, input: Input, parsed: Parsed, deterministic: seq<Finding>)
    ensures var r := StructuredDecision(ctx, input, parsed, deterministic);
      var actionable := ActionableBlockers(ctx, input, parsed, deterministic);
      && (r.status == Success <==> Trustworthy(ctx, input, parsed) && actionable == [] && !ctx.needsEvidence)
      && (r.status == RequestChanges ==> Trustworthy(ctx, input, parsed) && r.findings == Carried(ctx, actionable, input))
  {
    DecidedStatus(ctx, input, Trustworthy(ctx, input, parsed), ReportIds(ReportedBlocking(parsed)),
                  ActionableBlockers(ctx, input, parsed, deterministic));
  }

  lemma ExactReport(previousFindings: seq<Finding>, reports: seq<PreviousFinding>, f: Finding) returns (i: nat)
    requires CoversExactly(previousFindings, reports)
    requires f in previousFindings
    ensures i < |reports| && reports[i].id == f.id && reports[i].source == f.source
    ensures forall j :: 0 <= j < |reports| && j != i ==> reports[j].id != f.id
  {
    assert f.id in ReportIds(reports);
    i :| 0 <= i < |reports| && reports[i].id == f.id;
    assert SourceAgrees(previousFindings, reports[i]);
    assert LastById(previousFindings, f.id).value == f;
  }

  /** After success each previous finding has one report of its own, under its source, and a closed one has evidence. */
  lemma SuccessClosesEveryFinding(ctx: Context, input: Input, parsed: Parsed, deterministic: seq<Finding>, f: Finding)
    requires StructuredDecision(ctx, input, parsed, deterministic).status == Success
    requires f in input.previousFindings
    ensures exists i :: 0 <= i < |parsed.previousFindings| &&
              ClosingReport(ctx, f, parsed.previousFindings[i]) &&
              forall j :: 0 <= j < |parsed.previousFindings| && j != i ==> parsed.previousFindings[j].id != f.id
  {
    StructuredStatus(ctx, input, parsed, deterministic);
    var i := ExactReport(input.previousFindings, parsed.previousFindings, f);
    assert ClosingReport(ctx, f, parsed.previousFindings[i]);
  }

  ghost predicate ClosingReport(ctx: Context, f: Finding, report: PreviousFinding) {
    report.id == f.id && report.source == f.source && (BlockingStatus(report.status) || ctx.closureNote(report.note))
  }

  /** Why a previous finding may be missing from what a structured review sends back. */
  ghost predicate AccountedFor(ctx: Context, input: Input, parsed: Parsed, deterministic: seq<Finding>, id: string) {
    || (exists r :: r in parsed.previousFindings && r.id == id && !BlockingStatus(r.status) && ctx.closureNote(r.note))
    || (exists b :: b in StructuredBlockers(ctx, input, parsed, deterministic) && b.id == id && !ctx.actionable(b))
  }

  lemma ReportedBlockingIsMerged(ctx: Context, input: Input, parsed: Parsed, deterministic: seq<Finding>,
                                 report: PreviousFinding)
    requires report in parsed.previousFindings && BlockingStatus(report.status)
    ensures report.id in IdSet(StructuredBlockers(ctx, input, parsed, deterministic))
  {
    var groups := [StillBlockingFindings(parsed), Preserved(ctx, input, deterministic, parsed.previousFindings),
                   parsed.blockingFindings, deterministic];
    var blocking := ReportedBlocking(parsed);
    var i :| 0 <= i < |blocking| && blocking[i] == report;
    assert StillBlockingFindings(parsed)[i] in StillBlockingFindings(parsed);
    MergeIds(groups);
    ConcatIds(groups, 0);
  }

  /** Changes are never requested while a previous finding silently disappears. */
  lemma NothingDropsSilently(ctx: Context, input: Input, parsed: Parsed, deterministic: seq<Finding>, f: Finding)
    requires StructuredDecision(ctx, input, parsed, deterministic).status == RequestChanges
    requires f in input.previousFindings
    requires f.id !in IdSet(StructuredDecision(ctx, input, parsed, deterministic).findings)
    ensures AccountedFor(ctx, input, parsed, deterministic, f.id)
  {
    var actionable := ActionableBlockers(ctx, input, parsed, deterministic);
    StructuredStatus(ctx, input, parsed, deterministic);
    CarriedIds(ctx, actionable, input);
    var i := ExactReport(input.previousFindings, parsed.previousFindings, f);
    var report := parsed.previousFindings[i];
    if BlockingStatus(report.status) {
      ReportedBlockingIsMerged(ctx, input, parsed, deterministic, report);
      var b :| b in StructuredBlockers(ctx, input, parsed, deterministic) && b.id == f.id;
      assert ctx.actionable(b) ==> b in actionable;
    }
  }
}
