/**
  Streaks over runs of consecutive automatic reviews, and the outcome they lead to
  (packages/agent/src/autoReviewHandler.ts:263-287, 301-648).
 */
module ReviewStreaks {
  import opened Collections
  import opened ReviewFindings
  import opened ReviewGate

  // ---- The outcome of one automatic review ----

  datatype StopReason = StalledReworkLoop | MaxIterations | Handoff(reason: HandoffReason)

  datatype Outcome =
    | Accepted
    | OperatorInputRequired
    | ManualReviewNeeded(why: StopReason)
    | ReviewRetryRequested
    | ReworkRequested

  /** What the handler reads from the task and the environment. */
  datatype Settings = Settings(
    maxIterations: int, stallThreshold: int, synthesisException: bool, retryText: Finding -> bool)

  function StalledFindings(findings: seq<Finding>, threshold: int): seq<Finding> {
    Filter(findings, (f: Finding) => f.streak.Some? && f.streak.value >= threshold)
  }

  predicate ShouldRetryReview(settings: Settings, findings: seq<Finding>) {
    findings != [] && forall f :: f in findings ==> f.source == "review_gate" && settings.retryText(f)
  }

  function HandleGate(settings: Settings, result: GateResult, currentIteration: int): Outcome {
    match result.status
    case Success => Accepted
    case OperatorInput => OperatorInputRequired
    case ManualReview(reason) => ManualReviewNeeded(Handoff(reason))
    case RequestChanges =>
      if StalledFindings(result.findings, settings.stallThreshold) != [] && !settings.synthesisException then
        ManualReviewNeeded(StalledReworkLoop)
      else if currentIteration >= settings.maxIterations then ManualReviewNeeded(MaxIterations)
      else if ShouldRetryReview(settings, result.findings) then ReviewRetryRequested
      else ReworkRequested
  }

  predicate SendsBack(outcome: Outcome) {
    outcome == ReworkRequested || outcome == ReviewRetryRequested
  }

  // ---- One review against the previous findings ----

  datatype Round = Round(ctx: Context, strategy: Strategy, review: Review, deterministic: seq<Finding>)

  /** The previous findings that the review is held against. */
  function Asked(round: Round, previousFindings: seq<Finding>): seq<Finding> {
    if round.review.Structured? then Filter(previousFindings, (f: Finding) => !round.ctx.parseError(f))
    else previousFindings
  }

  function ReviewOnce(round: Round, previousFindings: seq<Finding>, iteration: int): GateResult {
    Evaluate(round.ctx, Input(round.strategy, iteration, previousFindings), round.review, round.deterministic)
  }

  /** Enriching again would change nothing: the streak fields are those the previous findings give. */
  ghost predicate EnrichedFrom(findings: seq<Finding>, previousFindings: seq<Finding>, iteration: int) {
    forall f :: f in findings ==> EnrichOne(f, previousFindings, iteration) == f
  }

  lemma EnrichingTwice(f: Finding, previousFindings: seq<Finding>, iteration: int, text: string -> string)
    ensures var g := Stated(EnrichOne(f, previousFindings, iteration), text);
      EnrichOne(g, previousFindings, iteration) == g
  {
  }

  lemma CarriedEnriched(ctx: Context, findings: seq<Finding>, input: Input)
    ensures EnrichedFrom(Carried(ctx, findings, input), input.previousFindings, input.iteration)
  {
    var enriched := Enrich(findings, input.previousFindings, input.iteration);
    var carried := ToState(ctx, enriched);
    forall i | 0 <= i < |carried|
      ensures EnrichOne(carried[i], input.previousFindings, input.iteration) == carried[i]
    {
      EnrichingTwice(findings[i], input.previousFindings, input.iteration, ctx.normalize);
    }
  }

  lemma EscalateEnriched(ctx: Context, input: Input, metrics: Metrics, findings: seq<Finding>, otherwise: GateStatus)
    ensures EnrichedFrom(Escalate(ctx, input, metrics, findings, otherwise).findings,
                         input.previousFindings, input.iteration)
  {
    var enriched := Enrich(findings, input.previousFindings, input.iteration);
    var manual := ManualFindings(ctx, enriched);
    CarriedEnriched(ctx, Map(manual, f => Sanitized(f, ctx.sanitize, ctx.sanitize)), input);
    CarriedEnriched(ctx, Map(enriched, f => Sanitized(f, ctx.askOperator, ctx.sanitize)), input);
    CarriedEnriched(ctx, findings, input);
  }

  lemma KeepAllEnriched(ctx: Context, input: Input, current: seq<seq<Finding>>, status: GateStatus)
    ensures EnrichedFrom(KeepAll(ctx, input, current, status).findings, input.previousFindings, input.iteration)
  {
    CarriedEnriched(ctx, Merge([input.previousFindings] + current), input);
  }

  lemma NoBlockersEnriched(ctx: Context, input: Input, metrics: Metrics)
    ensures EnrichedFrom(NoBlockers(ctx, input, metrics).findings, input.previousFindings, input.iteration)
  {
    CarriedEnriched(ctx, [ctx.evidenceFinding], input);
  }

  lemma DecideEnriched(ctx: Context, input: Input, trusted: bool, reported: set<string>, actionable: seq<Finding>)
    ensures EnrichedFrom(Decide(ctx, input, trusted, reported, actionable).findings,
                         input.previousFindings, input.iteration)
  {
    var metrics := StructuredMetrics(input, reported, actionable);
    KeepAllEnriched(ctx, input, [actionable], ManualReview(MalformedFallback));
    NoBlockersEnriched(ctx, input, metrics);
    EscalateEnriched(ctx, input, metrics, actionable, RequestChanges);
    EscalateEnriched(ctx, input, metrics, actionable, ManualReview(NewBlockersAfterRework));
  }

  lemma LegacyEnriched(ctx: Context, input: Input, listed: seq<Finding>, deterministic: seq<Finding>)
    ensures EnrichedFrom(LegacyDecision(ctx, input, listed, deterministic).findings,
                         input.previousFindings, input.iteration)
  {
    var current := Filter(Merge([listed, deterministic]), ctx.actionable);
    var metrics := LegacyDecision(ctx, input, listed, deterministic).metrics;
    KeepAllEnriched(ctx, input, [], ManualReview(MalformedFallback));
    var legacy := Metrics(|input.previousFindings|, |KnownOnes(current, input.previousFindings)|,
                          |NewOnes(current, input.previousFindings)|, |current|);
    NoBlockersEnriched(ctx, input, legacy);
    EscalateEnriched(ctx, input, legacy, current, RequestChanges);
    EscalateEnriched(ctx, input, legacy, current, ManualReview(NewBlockersAfterRework));
  }

  lemma FallbackEnriched(ctx: Context, input: Input, extracted: seq<Finding>, deterministic: seq<Finding>)
    ensures EnrichedFrom(FallbackDecision(ctx, input, extracted, deterministic).findings,
                         input.previousFindings, input.iteration)
  {
    var current := Filter(Merge([extracted, deterministic]), ctx.actionable);
    var metrics := Metrics(0, 0, |current|, |current|);
    KeepAllEnriched(ctx, input, [current], ManualReview(MalformedFallback));
    NoBlockersEnriched(ctx, input, metrics);
    EscalateEnriched(ctx, input, metrics, current, RequestChanges);
  }

  lemma StructuredEnriched(ctx: Context, input: Input, parsed: Parsed, deterministic: seq<Finding>)
    ensures EnrichedFrom(StructuredDecision(ctx, input, parsed, deterministic).findings,
                         input.previousFindings, input.iteration)
  {
    DecideEnriched(ctx, input, Trustworthy(ctx, input, parsed), ReportIds(ReportedBlocking(parsed)),
                   ActionableBlockers(ctx, input, parsed, deterministic));
  }

  lemma ContractEnriched(ctx: Context, input: Input, specialized: seq<Finding>, deterministic: seq<Finding>)
    ensures EnrichedFrom(ContractHandoff(ctx, input, specialized, deterministic).findings,
                         input.previousFindings, input.iteration)
  {
    KeepAllEnriched(ctx, input, [[ctx.contractFinding], specialized, deterministic],
                    ContractHandoff(ctx, input, specialized, deterministic).status);
  }

  lemma ParseErrorEnriched(ctx: Context, input: Input, error: Finding, deterministic: seq<Finding>)
    ensures EnrichedFrom(ParseErrorDecision(ctx, input, error, deterministic).findings, input.previousFindings,
                         input.iteration)
  {
    KeepAllEnriched(ctx, input, [[error], deterministic],
                    ParseErrorDecision(ctx, input, error, deterministic).status);
  }

  lemma ReviewEnriched(round: Round, previousFindings: seq<Finding>, iteration: int)
    ensures EnrichedFrom(ReviewOnce(round, previousFindings, iteration).findings,
                         Asked(round, previousFindings), iteration)
  {
    hide EnrichedFrom, ContractHandoff, StructuredDecision, ParseErrorDecision, LegacyDecision, FallbackDecision;
    var input := Input(round.strategy, iteration, previousFindings);
    match round.review {
      case ContractFailure(specialized) => ContractEnriched(round.ctx, input, specialized, round.deterministic);
      case Structured(parsed) =>
        StructuredEnriched(round.ctx, AskedAbout(round.ctx, input), parsed, round.deterministic);
      case Unparseable(error) => ParseErrorEnriched(round.ctx, input, error, round.deterministic);
      case LegacySection(listed) => LegacyEnriched(round.ctx, input, listed, round.deterministic);
      case Unstructured(extracted) => FallbackEnriched(round.ctx, input, extracted, round.deterministic);
    }
  }

  lemma MergeNonEmpty(groups: seq<seq<Finding>>, f: Finding, i: nat)
    requires i < |groups| && f in groups[i]
    ensures Merge(groups) != []
  {
    MergeIds(groups);
    ConcatIds(groups, i);
    assert f.id in IdSet(Merge(groups));
  }

  lemma EscalateLists(ctx: Context, input: Input, metrics: Metrics, findings: seq<Finding>, otherwise: GateStatus)
    requires findings != [] && Escalate(ctx, input, metrics, findings, otherwise).status == RequestChanges
    ensures Escalate(ctx, input, metrics, findings, otherwise).findings != []
  {
  }

  lemma KeepAllLists(ctx: Context, input: Input, f: Finding, rest: seq<seq<Finding>>, status: GateStatus)
    ensures KeepAll(ctx, input, [[f]] + rest, status).findings != []
  {
    var groups := [input.previousFindings] + ([[f]] + rest);
    assert groups[1] == [f];
    MergeNonEmpty(groups, f, 1);
  }

  lemma DecideLists(ctx: Context, input: Input, trusted: bool, reported: set<string>, actionable: seq<Finding>)
    requires Decide(ctx, input, trusted, reported, actionable).status == RequestChanges
    ensures Decide(ctx, input, trusted, reported, actionable).findings != []
  {
    EscalateLists(ctx, input, StructuredMetrics(input, reported, actionable), actionable, RequestChanges);
  }

  lemma LegacyLists(ctx: Context, input: Input, listed: seq<Finding>, deterministic: seq<Finding>)
    requires LegacyDecision(ctx, input, listed, deterministic).status == RequestChanges
    ensures LegacyDecision(ctx, input, listed, deterministic).findings != []
  {
  }

  lemma FallbackLists(ctx: Context, input: Input, extracted: seq<Finding>, deterministic: seq<Finding>)
    requires FallbackDecision(ctx, input, extracted, deterministic).status == RequestChanges
    ensures FallbackDecision(ctx, input, extracted, deterministic).findings != []
  {
  }

  /** A review that asks for changes lists what to change. */
  lemma ChangesAreListed(round: Round, previousFindings: seq<Finding>, iteration: int)
    requires ReviewOnce(round, previousFindings, iteration).status == RequestChanges
    ensures ReviewOnce(round, previousFindings, iteration).findings != []
  {
    hide ContractHandoff, Decide, ParseErrorDecision, LegacyDecision, FallbackDecision, Trustworthy;
    var ctx, input, more := round.ctx, Input(round.strategy, iteration, previousFindings), round.deterministic;
    match round.review {
      case ContractFailure(specialized) => ContractLists(ctx, input, specialized, more);
      case Structured(parsed) =>
        var asked := AskedAbout(ctx, input);
        DecideLists(ctx, asked, Trustworthy(ctx, asked, parsed), ReportIds(ReportedBlocking(parsed)),
                    ActionableBlockers(ctx, asked, parsed, more));
      case Unparseable(error) => ParseErrorLists(ctx, input, error, more);
      case LegacySection(listed) => LegacyLists(ctx, input, listed, more);
      case Unstructured(extracted) => FallbackLists(ctx, input, extracted, more);
    }
  }

  lemma ParseErrorLists(ctx: Context, input: Input, error: Finding, deterministic: seq<Finding>)
    ensures ParseErrorDecision(ctx, input, error, deterministic).findings != []
  {
    var status := ParseErrorDecision(ctx, input, error, deterministic).status;
    KeepAllLists(ctx, input, error, [deterministic], status);
    assert [[error]] + [deterministic] == [[error], deterministic];
  }

  lemma ContractLists(ctx: Context, input: Input, specialized: seq<Finding>, deterministic: seq<Finding>)
    requires ContractHandoff(ctx, input, specialized, deterministic).status == RequestChanges
    ensures ContractHandoff(ctx, input, specialized, deterministic).findings != []
  {
    KeepAllLists(ctx, input, ctx.contractFinding, [specialized, deterministic], RequestChanges);
    assert [[ctx.contractFinding]] + [specialized, deterministic] ==
           [[ctx.contractFinding], specialized, deterministic];
  }

  // ---- Runs of consecutive reviews ----

  /** One finished review: the previous findings it was held against, and its result. */
  datatype Seen = Seen(asked: seq<Finding>, result: GateResult)

  function Happened(round: Round, previousFindings: seq<Finding>, iteration: int): Seen {
    Seen(Asked(round, previousFindings), ReviewOnce(round, previousFindings, iteration))
  }

  /** The findings carried after the first k reviews, starting from none. */
  function CarriedAfter(history: seq<Seen>, k: nat): seq<Finding>
    requires k <= |history|
  {
    if k == 0 then [] else history[k - 1].result.findings
  }

  ghost predicate Follows(seen: Seen, previousFindings: seq<Finding>, iteration: int) {
    && (forall f :: f in seen.asked ==> f in previousFindings)
    && EnrichedFrom(seen.result.findings, seen.asked, iteration)
  }

  ghost predicate FollowsIn(history: seq<Seen>, k: nat)
    requires k < |history|
  {
    Follows(history[k], CarriedAfter(history, k), k + 1)
  }

  ghost predicate IsHistory(history: seq<Seen>) {
    forall k :: 0 <= k < |history| ==> FollowsIn(history, k)
  }

  /** Appending what a further review does keeps a history one. */
  lemma ReviewsMakeHistory(history: seq<Seen>, round: Round)
    requires IsHistory(history)
    ensures IsHistory(history + [Happened(round, CarriedAfter(history, |history|), |history| + 1)])
  {
    ReviewEnriched(round, CarriedAfter(history, |history|), |history| + 1);
    AppendToHistory(history, Happened(round, CarriedAfter(history, |history|), |history| + 1));
  }

  lemma AppendToHistory(history: seq<Seen>, seen: Seen)
    requires IsHistory(history)
    requires Follows(seen, CarriedAfter(history, |history|), |history| + 1)
    ensures IsHistory(history + [seen])
  {
    var longer := history + [seen];
    forall k | 0 <= k < |longer|
      ensures FollowsIn(longer, k)
    {
      CarriedPrefix(history, seen, k);
      if k < |history| {
        assert FollowsIn(history, k);
      }
    }
  }

  lemma CarriedPrefix(history: seq<Seen>, seen: Seen, k: nat)
    requires k <= |history|
    ensures CarriedAfter(history + [seen], k) == CarriedAfter(history, k)
  {
  }

  /** The k-th review listed the id. */
  predicate Lists(history: seq<Seen>, k: nat, id: string)
    requires k <= |history|
  {
    id in IdSet(CarriedAfter(history, k))
  }

  /** The k-th review was held against a finding with the id. */
  predicate Remembers(history: seq<Seen>, k: nat, id: string)
    requires 0 < k <= |history|
  {
    id in IdSet(history[k - 1].asked)
  }

  /** For how many reviews in a row, the k-th being the last, the id was listed and remembered. */
  function RunLength(history: seq<Seen>, k: nat, id: string): nat
    requires k <= |history|
  {
    if k == 0 || !Lists(history, k, id) then 0
    else 1 + if Remembers(history, k, id) then RunLength(history, k - 1, id) else 0
  }

  /** A streak that enrichment gives: one more than the finding it continues, or a first sighting. */
  ghost predicate Continues(f: Finding, previous: Option<Finding>, iteration: int) {
    && f.lastSeen == Some(iteration)
    && (previous.None? ==> f.streak == Some(1) && f.firstSeen == Some(iteration))
    && (previous.Some? && Tracked(previous.value, iteration - 1) ==>
          f.streak == Some(previous.value.streak.value + 1) && f.firstSeen == previous.value.firstSeen)
  }

  lemma EnrichedContinues(f: Finding, previousFindings: seq<Finding>, iteration: int)
    requires EnrichOne(f, previousFindings, iteration) == f
    ensures Continues(f, LastById(previousFindings, f.id), iteration)
  {
  }

  lemma FollowsAt(history: seq<Seen>, k: nat, f: Finding) returns (previous: Option<Finding>)
    requires IsHistory(history) && 0 < k <= |history|
    requires f in CarriedAfter(history, k)
    ensures Continues(f, previous, k)
    ensures previous.Some? <==> Remembers(history, k, f.id)
    ensures previous.Some? ==> previous.value in CarriedAfter(history, k - 1) && previous.value.id == f.id
  {
    assert FollowsIn(history, k - 1);
    previous := LastById(history[k - 1].asked, f.id);
    EnrichedContinues(f, history[k - 1].asked, k);
  }

  lemma ListedWhenCarried(history: seq<Seen>, k: nat, f: Finding)
    requires 0 < k <= |history|
    requires f in CarriedAfter(history, k)
    ensures RunLength(history, k, f.id) ==
            1 + if Remembers(history, k, f.id) then RunLength(history, k - 1, f.id) else 0
  {
    assert Lists(history, k, f.id);
  }

  /** Last seen in review k, for n reviews in a row. */
  ghost predicate StreakIs(f: Finding, k: int, n: int) {
    f.lastSeen == Some(k) && f.streak == Some(n) && f.firstSeen == Some(k - n + 1) && 1 <= n <= k
  }

  lemma StreakGrows(f: Finding, previous: Finding, k: int, n: int)
    requires Continues(f, Some(previous), k)
    requires StreakIs(previous, k - 1, n)
    ensures StreakIs(f, k, n + 1)
  {
  }

  /**
    After the k-th review every carried finding was last seen in it, and its streak is the number of
    reviews in a row that listed it and remembered having listed it.
   */
  lemma {:induction false} StreakIsRunLength(history: seq<Seen>, k: nat, f: Finding)
    requires IsHistory(history) && k <= |history|
    requires f in CarriedAfter(history, k)
    ensures StreakIs(f, k, RunLength(history, k, f.id))
  {
    var previous := FollowsAt(history, k, f);
    ListedWhenCarried(history, k, f);
    if previous.Some? {
      StreakIsRunLength(history, k - 1, previous.value);
      StreakGrows(f, previous.value, k, RunLength(history, k - 1, f.id));
    }
  }

  lemma StreaksAreRunLengths(history: seq<Seen>, k: nat)
    requires IsHistory(history) && k <= |history|
    ensures forall f :: f in CarriedAfter(history, k) ==> StreakIs(f, k, RunLength(history, k, f.id))
  {
    forall f | f in CarriedAfter(history, k)
      ensures StreakIs(f, k, RunLength(history, k, f.id))
    {
      StreakIsRunLength(history, k, f);
    }
  }

  /** The last n reviews up to the k-th all listed the id, and each remembered the one before. */
  ghost predicate ListedThroughout(history: seq<Seen>, k: nat, n: nat, id: string)
    requires n <= k <= |history|
  {
    && (forall j :: k - n < j <= k ==> Lists(history, j, id))
    && (forall j :: k - n + 1 < j <= k ==> Remembers(history, j, id))
  }

  lemma {:induction false} RunLengthMeansListed(history: seq<Seen>, k: nat, n: nat, id: string)
    requires n <= k <= |history|
    ensures RunLength(history, k, id) >= n <==> ListedThroughout(history, k, n, id)
  {
    if n == 1 {
      assert Lists(history, k, id) <==> ListedThroughout(history, k, 1, id);
    } else if n > 1 {
      RunLengthMeansListed(history, k - 1, n - 1, id);
      assert ListedThroughout(history, k, n, id) <==>
        Lists(history, k, id) && Remembers(history, k, id) && ListedThroughout(history, k - 1, n - 1, id);
    }
  }

  lemma StalledIff(findings: seq<Finding>, threshold: int)
    ensures StalledFindings(findings, threshold) != [] <==>
            exists f :: f in findings && f.streak.Some? && f.streak.value >= threshold
  {
    var stalled := StalledFindings(findings, threshold);
    if stalled != [] {
      assert stalled[0] in stalled;
    }
  }

  /** A review that asks for changes stops as stalled exactly when some id was listed the threshold times in a row. */
  lemma StallsExactlyAtThreshold(settings: Settings, history: seq<Seen>, k: nat)
    requires IsHistory(history)
    requires 1 <= settings.stallThreshold <= k <= |history|
    requires !settings.synthesisException
    requires history[k - 1].result.status == RequestChanges
    ensures HandleGate(settings, history[k - 1].result, k) == ManualReviewNeeded(StalledReworkLoop)
            <==> exists id :: ListedThroughout(history, k, settings.stallThreshold, id)
  {
    var findings := CarriedAfter(history, k);
    var threshold := settings.stallThreshold;
    StalledIff(findings, threshold);
    if f: Finding :| f in findings && f.streak.Some? && f.streak.value >= threshold {
      StreakIsRunLength(history, k, f);
      RunLengthMeansListed(history, k, threshold, f.id);
    }
    if id :| ListedThroughout(history, k, threshold, id) {
      RunLengthMeansListed(history, k, threshold, id);
      assert Lists(history, k, id);
      var f :| f in findings && f.id == id;
      StreakIsRunLength(history, k, f);
    }
  }

  /** Outside the exception, no id that is remembered throughout is sent back in threshold reviews in a row. */
  lemma NeverSentBackThresholdTimes(settings: Settings, history: seq<Seen>, k: nat, id: string)
    requires IsHistory(history)
    requires 1 <= settings.stallThreshold <= k <= |history|
    requires !settings.synthesisException
    requires ListedThroughout(history, k, settings.stallThreshold, id)
    ensures !SendsBack(HandleGate(settings, history[k - 1].result, k))
  {
    if history[k - 1].result.status == RequestChanges {
      StallsExactlyAtThreshold(settings, history, k);
    }
  }

  lemma NoneAtThreshold(settings: Settings, history: seq<Seen>, k: nat)
    requires IsHistory(history)
    requires 1 <= settings.stallThreshold <= k <= |history|
    requires !settings.synthesisException && SendsBack(HandleGate(settings, history[k - 1].result, k))
    ensures forall id :: !ListedThroughout(history, k, settings.stallThreshold, id)
  {
    hide ListedThroughout, IsHistory, HandleGate;
    forall id
      ensures !ListedThroughout(history, k, settings.stallThreshold, id)
    {
      if ListedThroughout(history, k, settings.stallThreshold, id) {
        NeverSentBackThresholdTimes(settings, history, k, id);
      }
    }
  }

  /** An id listed before is forgotten only by a structured review, and only as a parse error. */
  lemma ForgottenIff(round: Round, previousFindings: seq<Finding>, id: string)
    requires id in IdSet(previousFindings)
    ensures id !in IdSet(Asked(round, previousFindings)) <==>
            round.review.Structured? && forall f :: f in previousFindings && f.id == id ==> round.ctx.parseError(f)
  {
    if round.review.Structured? {
      forall f | f in previousFindings && f.id == id && !round.ctx.parseError(f)
        ensures id in IdSet(Asked(round, previousFindings))
      {
        assert f in Asked(round, previousFindings);
      }
    }
  }

  // ---- The exception is real ----

  /** Heuristics under which nothing but parse errors stands out. */
  function PlainContext(f: Finding): Context {
    Context(_ => true, _ => false, false, _ => false, _ => false, _ => true, t => t, t => t, t => t, _ => false,
            _ => None, false, f, f)
  }

  /** The streak fields of a first sighting in the given review. */
  function FirstSighting(f: Finding, iteration: int): Finding {
    f.(firstSeen := Some(iteration), lastSeen := Some(iteration), streak := Some(1))
  }

  lemma MergeSingle(groups: seq<seq<Finding>>, e: Finding)
    requires Concat(groups) == [e]
    ensures Merge(groups) == [e]
  {
    assert MergeOnto([], [e]) == MergeOnto(Absorb([], e), [e][1..]);
  }

  lemma FilterSingle(e: Finding, keep: Finding -> bool)
    ensures Filter([e], keep) == if keep(e) then [e] else []
  {
    assert Filter([e], keep) == (if keep(e) then [e] else []) + Filter([e][1..], keep);
  }

  lemma ConcatStep(first: seq<Finding>, rest: seq<seq<Finding>>)
    ensures Concat([first] + rest) == first + Concat(rest)
  {
    assert ([first] + rest)[1..] == rest;
  }

  lemma CarriedSingle(e: Finding, strategy: Strategy, iteration: int)
    ensures Carried(PlainContext(e), [e], Input(strategy, iteration, [])) == [FirstSighting(e, iteration)]
  {
    assert Stated(FirstSighting(e, iteration), PlainContext(e).normalize) == FirstSighting(e, iteration);
  }

  lemma UnparseableFirst(e: Finding)
    ensures var r := ReviewOnce(Round(PlainContext(e), FullReReview, Unparseable(e), []), [], 1);
      r.status == RequestChanges && r.findings == [FirstSighting(e, 1)]
  {
    var none: seq<Finding> := [];
    ConcatStep(none, [[e], none]);
    ConcatStep([e], [none]);
    ConcatStep(none, []);
    assert [none] + [[e], none] == [none, [e], none];
    assert [[e]] + [none] == [[e], none];
    assert [none] + [] == [none];
    assert Concat([none] + [[e], none]) == [e];
    MergeSingle([none] + [[e], none], e);
    CarriedSingle(e, FullReReview, 1);
  }

  function ReportedBlocker(e: Finding): Parsed {
    Parsed(FullReReview, 2, [], [e])
  }

  lemma OnlyBlocker(e: Finding)
    ensures ActionableBlockers(PlainContext(e), Input(FullReReview, 2, []), ReportedBlocker(e), []) == [e]
  {
    var none: seq<Finding> := [];
    ConcatStep(none, [none, [e], none]);
    ConcatStep(none, [[e], none]);
    ConcatStep([e], [none]);
    ConcatStep(none, []);
    assert [none] + [none, [e], none] == [none, none, [e], none];
    assert [none] + [[e], none] == [none, [e], none];
    assert [[e]] + [none] == [[e], none];
    assert [none] + [] == [none];
    MergeSingle([none, none, [e], none], e);
    assert StillBlockingFindings(ReportedBlocker(e)) == none;
    FilterSingle(e, PlainContext(e).actionable);
  }

  lemma DecideSingle(e: Finding)
    ensures var r := Decide(PlainContext(e), Input(FullReReview, 2, []), true, {}, [e]);
      r.status == RequestChanges && r.findings == [FirstSighting(e, 2)]
  {
    CarriedSingle(e, FullReReview, 2);
    FilterSingle(FirstSighting(e, 2), (f: Finding) => PlainContext(e).manualText(f.text));
    assert Enrich([e], [], 2) == [FirstSighting(e, 2)];
    assert FirstSighting(e, 2) in Enrich([e], [], 2);
    assert ManualFindings(PlainContext(e), Enrich([e], [], 2)) == [];
  }

  lemma ReportedAgain(e: Finding, previous: Finding)
    ensures var round := Round(PlainContext(e), FullReReview, Structured(ReportedBlocker(e)), []);
      var r := ReviewOnce(round, [previous], 2);
      r.status == RequestChanges && r.findings == [FirstSighting(e, 2)]
  {
    var ctx := PlainContext(e);
    FilterSingle(previous, (f: Finding) => !ctx.parseError(f));
    assert AskedAbout(ctx, Input(FullReReview, 2, [previous])) == Input(FullReReview, 2, []);
    OnlyBlocker(e);
    assert ReportIds(ReportedBlocking(ReportedBlocker(e))) == {};
    assert Trustworthy(ctx, Input(FullReReview, 2, []), ReportedBlocker(e));
    DecideSingle(e);
  }

  lemma SentBackUnstalled(settings: Settings, result: GateResult, k: int)
    requires settings.stallThreshold == 2 && k < settings.maxIterations
    requires result.status == RequestChanges && |result.findings| == 1 && result.findings[0].streak == Some(1)
    ensures SendsBack(HandleGate(settings, result, k))
  {
    assert result.findings == [result.findings[0]];
    StalledIff(result.findings, 2);
  }

  lemma UnparseableReview(e: Finding) returns (one: Seen)
    ensures IsHistory([one])
    ensures one.result.status == RequestChanges && one.result.findings == [FirstSighting(e, 1)]
  {
    var round := Round(PlainContext(e), FullReReview, Unparseable(e), []);
    UnparseableFirst(e);
    ReviewsMakeHistory([], round);
    one := Happened(round, [], 1);
    assert [] + [one] == [one];
  }

  lemma ForgetfulReview(e: Finding, history: seq<Seen>) returns (two: Seen)
    requires IsHistory(history) && |history| == 1 && history[0].result.findings == [FirstSighting(e, 1)]
    ensures IsHistory(history + [two])
    ensures two.result.status == RequestChanges && two.result.findings == [FirstSighting(e, 2)]
  {
    var round := Round(PlainContext(e), FullReReview, Structured(ReportedBlocker(e)), []);
    ReportedAgain(e, FirstSighting(e, 1));
    assert CarriedAfter(history, 1) == [FirstSighting(e, 1)];
    ReviewsMakeHistory(history, round);
    two := Happened(round, [FirstSighting(e, 1)], 2);
  }

  /** With a threshold of two, a parse error whose id is then reported as a blocker is sent back twice in a row. */
  lemma ForgottenIdSentBackTwice(settings: Settings, e: Finding) returns (history: seq<Seen>)
    requires settings.stallThreshold == 2 && settings.maxIterations > 2
    ensures IsHistory(history) && |history| == 2
    ensures forall k :: 1 <= k <= 2 ==>
              Lists(history, k, e.id) && SendsBack(HandleGate(settings, history[k - 1].result, k))
  {
    var one := UnparseableReview(e);
    var two := ForgetfulReview(e, [one]);
    history := [one] + [two];
    SentBackUnstalled(settings, one.result, 1);
    SentBackUnstalled(settings, two.result, 2);
    assert FirstSighting(e, 1) in CarriedAfter(history, 1) && FirstSighting(e, 2) in CarriedAfter(history, 2);
    assert Lists(history, 1, FirstSighting(e, 1).id) && Lists(history, 2, FirstSighting(e, 2).id);
  }
}
