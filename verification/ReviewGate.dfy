/**
  The decisions of the automatic review gate (packages/agent/src/reviewGate.ts:736-1582), one for
  each shape of review output.

  What the source decides by regular expressions and by looking at the project is a Context.
 */
module ReviewGate {
  import opened Collections
  import opened ReviewFindings

  datatype Parsed = Parsed(
    strategy: Strategy, iteration: int, previousFindings: seq<PreviousFinding>, blockingFindings: seq<Finding>)

  datatype Input = Input(strategy: Strategy, iteration: int, previousFindings: seq<Finding>)

  datatype Metrics = Metrics(previous: nat, still: nat, added: nat, total: nat)

  datatype HandoffReason =
    | NewBlockersAfterRework | MalformedFallback | MalformedContract | MissingEvidence

  datatype GateStatus =
    | Success | RequestChanges | ManualReview(reason: HandoffReason) | OperatorInput

  /** On success there is no state; otherwise the findings are the state carried to the next review. */
  datatype GateResult = GateResult(status: GateStatus, metrics: Metrics, findings: seq<Finding>)

  /** The text heuristics and project facts that one evaluation works with. */
  datatype Context = Context(
    actionable: Finding -> bool,
    coverageContract: Finding -> bool,
    sidecarsClean: bool,
    manualText: string -> bool,
    operatorInput: Finding -> bool,
    parseError: Finding -> bool,
    sanitize: string -> string,
    askOperator: string -> string,
    normalize: string -> string,
    closureNote: string -> bool,
    strictCode: string -> Option<string>,
    needsEvidence: bool,
    evidenceFinding: Finding,
    contractFinding: Finding)

  // ---- Pieces ----

  function Sanitized(f: Finding, text: string -> string, evidence: string -> string): Finding {
    f.(text := text(f.text), closureEvidence := Rewritten(f.closureEvidence, evidence))
  }

  function NormalizedDetails(d: Details, norm: string -> string): Details {
    d.(claim := Rewritten(d.claim, norm), requiredFix := Rewritten(d.requiredFix, norm),
       verification := Rewritten(d.verification, norm))
  }

  function Stated(f: Finding, norm: string -> string): Finding {
    Sanitized(f, norm, norm).(details := NormalizedDetails(f.details, norm))
  }

  /** The findings as they are persisted: with normalized texts. */
  function ToState(ctx: Context, findings: seq<Finding>): seq<Finding> {
    Map(findings, f => Stated(f, ctx.normalize))
  }

  /** Enriched against the previous findings and persisted. */
  function Carried(ctx: Context, findings: seq<Finding>, input: Input): seq<Finding> {
    ToState(ctx, Enrich(findings, input.previousFindings, input.iteration))
  }

  function NewOnes(findings: seq<Finding>, previousFindings: seq<Finding>): seq<Finding> {
    Filter(findings, (f: Finding) => f.id !in IdSet(previousFindings))
  }

  function KnownOnes(findings: seq<Finding>, previousFindings: seq<Finding>): seq<Finding> {
    Filter(findings, (f: Finding) => f.id in IdSet(previousFindings))
  }

  function Recoverable(ctx: Context, findings: seq<Finding>): bool {
    findings != [] && ctx.sidecarsClean && forall f :: f in findings ==> ctx.coverageContract(f)
  }

  function ManualFindings(ctx: Context, findings: seq<Finding>): seq<Finding> {
    Filter(findings, (f: Finding) => ctx.manualText(f.text))
  }

  function AllOperatorInput(ctx: Context, findings: seq<Finding>): bool {
    findings != [] && forall f :: f in findings ==> ctx.operatorInput(f)
  }

  /** What an enriched list of blockers leads to when nothing else stops the review. */
  function Escalate(ctx: Context, input: Input, metrics: Metrics, findings: seq<Finding>, otherwise: GateStatus)
    : GateResult
  {
    var enriched := Enrich(findings, input.previousFindings, input.iteration);
    var manual := ManualFindings(ctx, enriched);
    if manual != [] then
      GateResult(ManualReview(MalformedFallback), metrics,
                 Carried(ctx, Map(manual, f => Sanitized(f, ctx.sanitize, ctx.sanitize)), input))
    else if AllOperatorInput(ctx, enriched) then
      GateResult(OperatorInput, metrics,
                 Carried(ctx, Map(enriched, f => Sanitized(f, ctx.askOperator, ctx.sanitize)), input))
    else
      GateResult(otherwise, metrics, ToState(ctx, enriched))
  }

  function EvidenceHandoff(ctx: Context, input: Input, metrics: Metrics): GateResult {
    GateResult(ManualReview(MissingEvidence),
               metrics.(added := metrics.added + 1, total := metrics.total + 1),
               Carried(ctx, [ctx.evidenceFinding], input))
  }

  function NoBlockers(ctx: Context, input: Input, metrics: Metrics): GateResult {
    if ctx.needsEvidence then EvidenceHandoff(ctx, input, metrics)
    else GateResult(Success, metrics, [])
  }

  /** All previous findings and the current ones, with every previous one counted as still blocking. */
  function KeepAll(ctx: Context, input: Input, current: seq<seq<Finding>>, status: GateStatus): GateResult {
    var merged := Merge([input.previousFindings] + current);
    GateResult(status,
               Metrics(|input.previousFindings|, |input.previousFindings|,
                       |NewOnes(merged, input.previousFindings)|, |merged|),
               Carried(ctx, merged, input))
  }

  // ---- Structured output ----

  function ReportedBlocking(parsed: Parsed): seq<PreviousFinding> {
    Filter(parsed.previousFindings, (f: PreviousFinding) => BlockingStatus(f.status))
  }

  function StillBlockingFindings(parsed: Parsed): seq<Finding> {
    Map(ReportedBlocking(parsed), (f: PreviousFinding) =>
      Finding(f.id, f.source, f.note, Some(f.status), IfAny(f.closureEvidence), NoDetails, None, None, None))
  }

  function StrictCodeOf(ctx: Context, f: Finding): Option<string> {
    Or(ctx.strictCode(f.text), ctx.strictCode(f.id))
  }

  function CurrentStrictCodes(ctx: Context, deterministic: seq<Finding>): set<string> {
    set f | f in deterministic && ctx.strictCode(f.text).Some? :: ctx.strictCode(f.text).value
  }

  /** The previous finding, if it was reported closed although its validator still objects. */
  function Preserved(ctx: Context, input: Input, deterministic: seq<Finding>, reports: seq<PreviousFinding>)
    : seq<Finding>
  {
    if reports == [] then []
    else
      var known := LastById(input.previousFindings, reports[0].id);
      (if !BlockingStatus(reports[0].status) && known.Some? && StrictCodeOf(ctx, known.value).Some? &&
          StrictCodeOf(ctx, known.value).value in CurrentStrictCodes(ctx, deterministic)
       then [known.value] else [])
      + Preserved(ctx, input, deterministic, reports[1..])
  }

  function StructuredBlockers(ctx: Context, input: Input, parsed: Parsed, deterministic: seq<Finding>): seq<Finding> {
    Merge([StillBlockingFindings(parsed), Preserved(ctx, input, deterministic, parsed.previousFindings),
           parsed.blockingFindings, deterministic])
  }

  function ActionableBlockers(ctx: Context, input: Input, parsed: Parsed, deterministic: seq<Finding>): seq<Finding> {
    var blockers := StructuredBlockers(ctx, input, parsed, deterministic);
    if Recoverable(ctx, blockers) then [] else Filter(blockers, ctx.actionable)
  }

  function ReportIds(reports: seq<PreviousFinding>): set<string> {
    set f | f in reports :: f.id
  }

  /** Reported as blocking, or a previous finding that is still actionable. */
  function StillBlockingIds(reported: set<string>, actionable: seq<Finding>, input: Input): set<string> {
    reported + IdSet(actionable) * IdSet(input.previousFindings)
  }

  method CollectStillBlockingIds(parsed: Parsed, actionable: seq<Finding>, input: Input) returns (ids: set<string>)
    ensures ids == StillBlockingIds(ReportIds(ReportedBlocking(parsed)), actionable, input)
  {
    var reported := ReportIds(ReportedBlocking(parsed));
    var previousIds := IdSet(input.previousFindings);
    ids := reported;
    for i := 0 to |actionable|
      invariant ids == reported + IdSet(actionable[..i]) * previousIds
    {
      assert actionable[..i + 1] == actionable[..i] + [actionable[i]];
      assert IdSet(actionable[..i + 1]) == IdSet(actionable[..i]) + {actionable[i].id};
      if actionable[i].id in previousIds {
        ids := ids + {actionable[i].id};
      }
    }
    assert actionable[..|actionable|] == actionable;
  }

  predicate SourceAgrees(previousFindings: seq<Finding>, report: PreviousFinding) {
    var expected := LastById(previousFindings, report.id);
    expected.Some? && expected.value.source == report.source
  }

  /** Every previous finding is reported exactly once, under its own source, and nothing else is. */
  predicate CoversExactly(previousFindings: seq<Finding>, reports: seq<PreviousFinding>) {
    && |reports| == |previousFindings|
    && (forall i, j :: 0 <= i < j < |reports| ==> reports[i].id != reports[j].id)
    && (forall i, j :: 0 <= i < j < |previousFindings| ==> previousFindings[i].id != previousFindings[j].id)
    && ReportIds(reports) == IdSet(previousFindings)
    && forall r :: r in reports ==> SourceAgrees(previousFindings, r)
  }

  /** Distinct reports, each of a previous finding under its source, as many as there are previous ids. */
  lemma SameSizeCovers(previousFindings: seq<Finding>, reports: seq<PreviousFinding>, seen: set<string>)
    requires |reports| == |previousFindings|
    requires forall i, j :: 0 <= i < j < |reports| ==> reports[i].id != reports[j].id
    requires seen == ReportIds(reports)
    requires forall r :: r in reports ==> SourceAgrees(previousFindings, r)
    ensures |seen| == |IdSet(previousFindings)| <==> CoversExactly(previousFindings, reports)
  {
    var expected := IdSet(previousFindings);
    forall id | id in seen
      ensures id in expected
    {
      var r :| r in reports && r.id == id;
      assert SourceAgrees(previousFindings, r);
    }
    SubsetCardinality(seen, expected);
    DistinctReportCount(reports);
    DistinctIdsCount(previousFindings);
  }

  lemma {:induction false} DistinctReportCount(reports: seq<PreviousFinding>)
    requires forall i, j :: 0 <= i < j < |reports| ==> reports[i].id != reports[j].id
    ensures |ReportIds(reports)| == |reports|
  {
    if reports != [] {
      DistinctReportCount(reports[1..]);
      assert reports[0].id !in ReportIds(reports[1..]);
      assert ReportIds(reports) == ReportIds(reports[1..]) + {reports[0].id};
    }
  }

  method ParsedPreviousFindingsMatchInput(input: Input, parsed: Parsed) returns (matches: bool)
    ensures matches <==> CoversExactly(input.previousFindings, parsed.previousFindings)
  {
    var reports := parsed.previousFindings;
    if |reports| != |input.previousFindings| {
      return false;
    }
    var seen: set<string> := {};
    for i := 0 to |reports|
      invariant seen == ReportIds(reports[..i])
      invariant forall j, k :: 0 <= j < k < i ==> reports[j].id != reports[k].id
      invariant forall j :: 0 <= j < i ==> SourceAgrees(input.previousFindings, reports[j])
    {
      assert reports[..i + 1] == reports[..i] + [reports[i]];
      if reports[i].id in seen {
        return false;
      }
      seen := seen + {reports[i].id};
      if !SourceAgrees(input.previousFindings, reports[i]) {
        assert reports[i] in reports;
        return false;
      }
    }
    assert reports[..|reports|] == reports;
    SameSizeCovers(input.previousFindings, reports, seen);
    return |seen| == |IdSet(input.previousFindings)|;
  }

  predicate ClosuresEvidenced(ctx: Context, reports: seq<PreviousFinding>) {
    forall r :: r in reports && !BlockingStatus(r.status) ==> ctx.closureNote(r.note)
  }

  predicate Trustworthy(ctx: Context, input: Input, parsed: Parsed) {
    && parsed.strategy == input.strategy && parsed.iteration == input.iteration
    && CoversExactly(input.previousFindings, parsed.previousFindings)
    && ClosuresEvidenced(ctx, parsed.previousFindings)
  }

  function StructuredMetrics(input: Input, reported: set<string>, actionable: seq<Finding>): Metrics {
    Metrics(|input.previousFindings|, |StillBlockingIds(reported, actionable, input)|,
            |NewOnes(actionable, input.previousFindings)|, |actionable|)
  }

  /** The decision on the blockers that are left after filtering. */
  function Decide(ctx: Context, input: Input, trusted: bool, reported: set<string>, actionable: seq<Finding>)
    : GateResult
  {
    var metrics := StructuredMetrics(input, reported, actionable);
    if !trusted then KeepAll(ctx, input, [actionable], ManualReview(MalformedFallback))
    else if actionable == [] then NoBlockers(ctx, input, metrics)
    else
      Escalate(ctx, input, metrics, actionable,
               if input.strategy == ClosureFirst && input.previousFindings != [] && metrics.still == 0 &&
                  metrics.added > 0
               then ManualReview(NewBlockersAfterRework) else RequestChanges)
  }

  function StructuredDecision(ctx: Context, input: Input, parsed: Parsed, deterministic: seq<Finding>): GateResult {
    Decide(ctx, input, Trustworthy(ctx, input, parsed), ReportIds(ReportedBlocking(parsed)),
           ActionableBlockers(ctx, input, parsed, deterministic))
  }

  // ---- Other shapes of review output ----

  function ParseErrorDecision(ctx: Context, input: Input, error: Finding, deterministic: seq<Finding>): GateResult {
    KeepAll(ctx, input, [[error], deterministic],
            if error.id in IdSet(input.previousFindings) then ManualReview(MalformedContract) else RequestChanges)
  }

  function ContractHandoff(ctx: Context, input: Input, specialized: seq<Finding>, deterministic: seq<Finding>)
    : GateResult
  {
    var groups := [[ctx.contractFinding], specialized, deterministic];
    if input.previousFindings == [] && Recoverable(ctx, Merge(groups)) then
      GateResult(Success, Metrics(0, 0, 0, 0), [])
    else
      var enriched := Enrich(Merge([input.previousFindings] + groups), input.previousFindings, input.iteration);
      var manual := exists f :: f in enriched && f.source != "review_gate" && ctx.manualText(f.text);
      KeepAll(ctx, input, groups, if manual then ManualReview(MalformedContract) else RequestChanges)
  }

  function FallbackDecision(ctx: Context, input: Input, fallback: seq<Finding>, deterministic: seq<Finding>)
    : GateResult
  {
    var current := Filter(Merge([fallback, deterministic]), ctx.actionable);
    if input.previousFindings != [] then
      KeepAll(ctx, input, [current], ManualReview(MalformedFallback))
    else
      var metrics := Metrics(0, 0, |current|, |current|);
      if current == [] then NoBlockers(ctx, input, metrics)
      else Escalate(ctx, input, metrics, current, RequestChanges)
  }

  function LegacyDecision(ctx: Context, input: Input, listed: seq<Finding>, deterministic: seq<Finding>): GateResult {
    var current := Filter(Merge([listed, deterministic]), ctx.actionable);
    var added := NewOnes(current, input.previousFindings);
    var known := KnownOnes(current, input.previousFindings);
    var metrics := Metrics(|input.previousFindings|, |known|, |added|, |current|);
    if current == [] then
      if input.previousFindings != [] then KeepAll(ctx, input, [], ManualReview(MalformedFallback))
      else NoBlockers(ctx, input, metrics)
    else
      Escalate(ctx, input, metrics, current,
               if input.strategy == ClosureFirst && input.previousFindings != [] &&
                  known == [] && added != []
               then ManualReview(NewBlockersAfterRework) else RequestChanges)
  }

  /** What the review comments turned out to be. */
  datatype Review =
    | ContractFailure(specialized: seq<Finding>)
    | Structured(parsed: Parsed)
    | Unparseable(error: Finding)
    | LegacySection(listed: seq<Finding>)
    | Unstructured(extracted: seq<Finding>)

  /** The structured path does not ask the reviewer about earlier parse errors. */
  function AskedAbout(ctx: Context, input: Input): Input {
    input.(previousFindings := Filter(input.previousFindings, (f: Finding) => !ctx.parseError(f)))
  }

  function Evaluate(ctx: Context, input: Input, review: Review, deterministic: seq<Finding>): GateResult {
    match review
    case ContractFailure(specialized) => ContractHandoff(ctx, input, specialized, deterministic)
    case Structured(parsed) => StructuredDecision(ctx, AskedAbout(ctx, input), parsed, deterministic)
    case Unparseable(error) => ParseErrorDecision(ctx, input, error, deterministic)
    case LegacySection(listed) => LegacyDecision(ctx, input, listed, deterministic)
    case Unstructured(extracted) => FallbackDecision(ctx, input, extracted, deterministic)
  }
}
