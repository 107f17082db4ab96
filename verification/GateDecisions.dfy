/**
  The review gate's decisions over its inputs alone: which findings count as blockers, when a review passes, and what
  every other status means (packages/agent/src/reviewGate.ts:736-1582).
 */
module GateDecisions {
  import opened Collections
  import opened ReviewFindings
  import opened ReviewGate
  import opened ReviewGateProperties
  import opened MergedFindings

  // ---- The blockers of a structured review ----

  ghost predicate Closed(status: ClosureStatus) {
    status in {Resolved, NotReproducible}
  }

  /** A deterministic finding raises the strict code of f: that of its text, or of its id when the text has none. */
  ghost predicate StillObjected(ctx: Context, f: Finding, deterministic: seq<Finding>) {
    exists d :: d in deterministic && ctx.strictCode(d.text).Some? &&
      (ctx.strictCode(f.text) == ctx.strictCode(d.text) ||
       (ctx.strictCode(f.text).None? && ctx.strictCode(f.id) == ctx.strictCode(d.text)))
  }

  /** A previous finding that was reported closed although its validator still objects. */
  ghost predicate Reopened(ctx: Context, input: Input, parsed: Parsed, deterministic: seq<Finding>, f: Finding) {
    && LastById(input.previousFindings, f.id) == Some(f)
    && StillObjected(ctx, f, deterministic)
    && exists r :: r in parsed.previousFindings && r.id == f.id && Closed(r.status)
  }

  ghost predicate ReportedOpen(parsed: Parsed, id: string) {
    exists r :: r in parsed.previousFindings && r.id == id && !Closed(r.status)
  }

  /** Someone holds something against the change under this id. */
  ghost predicate Raised(ctx: Context, input: Input, parsed: Parsed, deterministic: seq<Finding>, id: string) {
    || ReportedOpen(parsed, id)
    || (exists f: Finding :: f.id == id && Reopened(ctx, input, parsed, deterministic, f))
    || id in IdSet(parsed.blockingFindings)
    || id in IdSet(deterministic)
  }

  lemma StatusIsOpenOrClosed(status: ClosureStatus)
    ensures BlockingStatus(status) <==> !Closed(status)
  {
  }

  lemma {:induction false} PreservedAre(ctx: Context, input: Input, deterministic: seq<Finding>,
                                        reports: seq<PreviousFinding>, f: Finding)
    ensures f in Preserved(ctx, input, deterministic, reports) <==>
            && LastById(input.previousFindings, f.id) == Some(f)
            && StillObjected(ctx, f, deterministic)
            && exists r :: r in reports && r.id == f.id && Closed(r.status)
  {
    if reports != [] {
      PreservedAre(ctx, input, deterministic, reports[1..], f);
      StatusIsOpenOrClosed(reports[0].status);
      var known := LastById(input.previousFindings, reports[0].id);
      if known.Some? {
        CodeIsRaised(ctx, known.value, deterministic);
      }
    }
  }

  lemma CodeIsRaised(ctx: Context, f: Finding, deterministic: seq<Finding>)
    ensures StillObjected(ctx, f, deterministic) <==>
            StrictCodeOf(ctx, f).Some? && StrictCodeOf(ctx, f).value in CurrentStrictCodes(ctx, deterministic)
  {
  }

  lemma OpenReportIds(parsed: Parsed, id: string)
    ensures id in IdSet(StillBlockingFindings(parsed)) <==> ReportedOpen(parsed, id)
  {
    var blocking, still := ReportedBlocking(parsed), StillBlockingFindings(parsed);
    OpenReports(parsed);
    hide ReportedBlocking, BlockingStatus, Closed;
    if f :| f in still && f.id == id {
      var i :| 0 <= i < |still| && still[i] == f;
      assert blocking[i] in blocking && blocking[i].id == id;
    }
    if r :| r in blocking && r.id == id {
      var i :| 0 <= i < |blocking| && blocking[i] == r;
      assert still[i] in still && still[i].id == id;
    }
  }

  lemma OpenReports(parsed: Parsed)
    ensures forall r :: r in ReportedBlocking(parsed) <==> r in parsed.previousFindings && !Closed(r.status)
  {
    forall r: PreviousFinding
      ensures BlockingStatus(r.status) <==> !Closed(r.status)
    {
      StatusIsOpenOrClosed(r.status);
    }
  }

  lemma ConcatIsAll<T>(parts: seq<seq<T>>, first: seq<T>)
    ensures Concat([first] + parts) == first + Concat(parts)
  {
    assert ([first] + parts)[1..] == parts;
  }

  lemma GroupIds(first: seq<Finding>, rest: seq<seq<Finding>>)
    ensures IdSet(Concat([first] + rest)) == IdSet(first) + IdSet(Concat(rest))
  {
    ConcatIsAll(rest, first);
  }

  lemma FourGroups(a: seq<Finding>, b: seq<Finding>, c: seq<Finding>, d: seq<Finding>)
    ensures IdSet(Merge([a, b, c, d])) == IdSet(a) + IdSet(b) + IdSet(c) + IdSet(d)
  {
    hide IdSet, Concat, Merge;
    MergeIds([a, b, c, d]);
    assert [a, b, c, d] == [a] + [b, c, d] && [b, c, d] == [b] + [c, d] && [c, d] == [c] + [d] && [d] == [d] + [];
    GroupIds(a, [b, c, d]);
    GroupIds(b, [c, d]);
    GroupIds(c, [d]);
    GroupIds(d, []);
    NoIds();
  }

  lemma NoIds()
    ensures IdSet(Concat<Finding>([])) == {}
  {
  }

  lemma TwoGroups(a: seq<Finding>, b: seq<Finding>)
    ensures IdSet(Merge([a, b])) == IdSet(a) + IdSet(b)
  {
    MergeIds([a, b]);
    assert [a, b] == [a] + [b] && [b] == [b] + [];
    GroupIds(a, [b]);
    GroupIds(b, []);
  }

  /** The blockers of a structured review have exactly the ids that were raised. */
  lemma BlockersAreRaised(ctx: Context, input: Input, parsed: Parsed, deterministic: seq<Finding>, id: string)
    ensures id in IdSet(StructuredBlockers(ctx, input, parsed, deterministic)) <==>
            Raised(ctx, input, parsed, deterministic, id)
  {
    var kept := Preserved(ctx, input, deterministic, parsed.previousFindings);
    FourGroups(StillBlockingFindings(parsed), kept, parsed.blockingFindings, deterministic);
    OpenReportIds(parsed, id);
    forall f
      ensures f in kept <==> Reopened(ctx, input, parsed, deterministic, f)
    {
      PreservedAre(ctx, input, deterministic, parsed.previousFindings, f);
    }
  }

  /** An open report becomes a finding with its note, its status, and its evidence if it has any. */
  lemma OpenReportSays(parsed: Parsed, i: nat)
    requires i < |ReportedBlocking(parsed)|
    ensures i < |StillBlockingFindings(parsed)|
    ensures var r, f := ReportedBlocking(parsed)[i], StillBlockingFindings(parsed)[i];
      && !Closed(r.status) && f.id == r.id && f.source == r.source && f.text == r.note && f.status == Some(r.status)
      && (forall t :: f.closureEvidence == Some(t) <==> r.closureEvidence == Some(t) && t != "")
      && f.details == NoDetails && f.firstSeen.None? && f.lastSeen.None? && f.streak.None?
  {
    assert ReportedBlocking(parsed)[i] in ReportedBlocking(parsed);
    StatusIsOpenOrClosed(ReportedBlocking(parsed)[i].status);
  }

  // ---- What a blocker says ----

  lemma {:induction false} LastByIdConcat(a: seq<Finding>, b: seq<Finding>, id: string)
    ensures LastById(a + b, id) == Or(LastById(b, id), LastById(a, id))
  {
    if b == [] {
      assert a + b == a;
    } else {
      assert a + b == (a + Init(b)) + [Last(b)];
      LastByIdConcat(a, Init(b), id);
      LastByIdMore(a + Init(b), Last(b), id);
    }
  }

  lemma LastOfFour(a: seq<Finding>, b: seq<Finding>, c: seq<Finding>, d: seq<Finding>, id: string)
    ensures LastById(Concat([a, b, c, d]), id) ==
            Or(LastById(d, id), Or(LastById(c, id), Or(LastById(b, id), LastById(a, id))))
  {
    assert [a, b, c, d] == [a] + [b, c, d] && [b, c, d] == [b] + [c, d] && [c, d] == [c] + [d] && [d] == [d] + [];
    ConcatIsAll([b, c, d], a);
    ConcatIsAll([c, d], b);
    ConcatIsAll([d], c);
    ConcatIsAll([], d);
    assert d + Concat([]) == d;
    LastByIdConcat(c, d, id);
    LastByIdConcat(b, c + d, id);
    LastByIdConcat(a, b + (c + d), id);
  }

  /** The words of f. */
  predicate Says(b: Finding, f: Finding) {
    b.id == f.id && b.text == f.text && b.source == f.source
  }

  /**
    A blocker has the words of the deterministic finding with its id if there is one, then of the one the review
    lists, then of the reopened previous finding, and otherwise of an open report on it.
   */
  lemma BlockerSays(ctx: Context, input: Input, parsed: Parsed, deterministic: seq<Finding>, b: Finding)
    requires b in StructuredBlockers(ctx, input, parsed, deterministic)
    ensures var validator, listed := LastById(deterministic, b.id), LastById(parsed.blockingFindings, b.id);
      && (validator.Some? ==> Says(b, validator.value))
      && (validator.None? && listed.Some? ==> Says(b, listed.value))
      && (validator.None? && listed.None? ==>
            || (exists f :: Reopened(ctx, input, parsed, deterministic, f) && Says(b, f))
            || (exists r :: r in parsed.previousFindings && r.id == b.id && !Closed(r.status) &&
                  b.text == r.note && b.source == r.source &&
                  !exists f: Finding :: f.id == b.id && Reopened(ctx, input, parsed, deterministic, f)))
  {
    var still := StillBlockingFindings(parsed);
    var kept := Preserved(ctx, input, deterministic, parsed.previousFindings);
    MergedSays([still, kept, parsed.blockingFindings, deterministic], b);
    LastOfFour(still, kept, parsed.blockingFindings, deterministic, b.id);
    forall f
      ensures f in kept <==> Reopened(ctx, input, parsed, deterministic, f)
    {
      PreservedAre(ctx, input, deterministic, parsed.previousFindings, f);
    }
    if LastById(kept, b.id).None? && LastById(still, b.id).Some? {
      var f := LastById(still, b.id).value;
      var i :| 0 <= i < |still| && still[i] == f;
      var r := ReportedBlocking(parsed)[i];
      assert r in ReportedBlocking(parsed);
      StatusIsOpenOrClosed(r.status);
      assert f.text == r.note && f.source == r.source && f.id == r.id;
    }
  }

  // ---- Statuses ----

  /** Nothing but recoverable failures to cover security areas, and the reviewers' own outputs are clean. */
  ghost predicate CoverageOnly(ctx: Context, blockers: seq<Finding>) {
    ctx.sidecarsClean && forall b :: b in blockers ==> ctx.coverageContract(b)
  }

  /** The blocker stands in the way: it calls for action and is not excused with all the others. */
  ghost predicate Stands(ctx: Context, blockers: seq<Finding>, b: Finding) {
    b in blockers && ctx.actionable(b) && !CoverageOnly(ctx, blockers)
  }

  /** What calls for action among the standing findings: a person, the operator, or the implementer. */
  ghost predicate NeedsPerson(ctx: Context, standing: seq<Finding>) {
    exists b :: b in standing && ctx.manualText(b.text)
  }

  ghost predicate NeedsOperator(ctx: Context, input: Input, standing: seq<Finding>) {
    && !NeedsPerson(ctx, standing) && standing != []
    && forall b :: b in standing ==> ctx.operatorInput(EnrichOne(b, input.previousFindings, input.iteration))
  }

  /** Some finding is for the implementer, and none for a person. */
  ghost predicate NeedsWork(ctx: Context, input: Input, standing: seq<Finding>) {
    && !NeedsPerson(ctx, standing)
    && exists b :: b in standing && !ctx.operatorInput(EnrichOne(b, input.previousFindings, input.iteration))
  }

  /** A closure review found only new things: none of the previous findings stands. */
  ghost predicate OnlyNew(input: Input, standing: seq<Finding>) {
    && input.strategy == ClosureFirst && input.previousFindings != []
    && forall b, f :: b in standing && f in input.previousFindings ==> b.id != f.id
  }

  lemma EscalateStatus(ctx: Context, input: Input, metrics: Metrics, standing: seq<Finding>, otherwise: GateStatus)
    requires standing != []
    ensures Escalate(ctx, input, metrics, standing, otherwise).status ==
            if NeedsPerson(ctx, standing) then ManualReview(MalformedFallback)
            else if NeedsOperator(ctx, input, standing) then OperatorInput
            else otherwise
    ensures NeedsPerson(ctx, standing) || NeedsOperator(ctx, input, standing) || NeedsWork(ctx, input, standing)
    ensures !(NeedsOperator(ctx, input, standing) && NeedsWork(ctx, input, standing))
  {
    var enriched := Enrich(standing, input.previousFindings, input.iteration);
    var manual := ManualFindings(ctx, enriched);
    EnrichedMembers(standing, input);
    if manual != [] {
      assert manual[0] in manual;
    }
    if b :| b in standing && ctx.manualText(b.text) {
      assert EnrichOne(b, input.previousFindings, input.iteration) in manual;
    }
  }

  lemma EnrichedMembers(standing: seq<Finding>, input: Input)
    ensures var enriched := Enrich(standing, input.previousFindings, input.iteration);
      && (forall b :: b in standing ==> EnrichOne(b, input.previousFindings, input.iteration) in enriched)
      && (forall e :: e in enriched ==>
            exists b :: b in standing && e == EnrichOne(b, input.previousFindings, input.iteration) && e.text == b.text)
  {
    var enriched := Enrich(standing, input.previousFindings, input.iteration);
    forall b | b in standing
      ensures EnrichOne(b, input.previousFindings, input.iteration) in enriched
    {
      var i :| 0 <= i < |standing| && standing[i] == b;
      assert enriched[i] in enriched;
    }
    forall e | e in enriched
      ensures exists b :: b in standing && e == EnrichOne(b, input.previousFindings, input.iteration) && e.text == b.text
    {
      var i :| 0 <= i < |enriched| && enriched[i] == e;
      assert standing[i] in standing;
    }
  }

  lemma StandingAre(ctx: Context, input: Input, parsed: Parsed, deterministic: seq<Finding>, b: Finding)
    ensures b in ActionableBlockers(ctx, input, parsed, deterministic) <==>
            Stands(ctx, StructuredBlockers(ctx, input, parsed, deterministic), b)
  {
  }

  ghost predicate ReportedOn(reports: seq<PreviousFinding>, f: Finding) {
    exists r :: r in reports && r.id == f.id && r.source == f.source
  }

  /** The comments are for this review, report on each previous finding exactly once, and prove what they close. */
  ghost predicate Sound(ctx: Context, input: Input, parsed: Parsed) {
    && parsed.strategy == input.strategy && parsed.iteration == input.iteration
    && DistinctIds(input.previousFindings)
    && (forall i, j :: 0 <= i < j < |parsed.previousFindings| ==>
          parsed.previousFindings[i].id != parsed.previousFindings[j].id)
    && (forall f :: f in input.previousFindings ==> ReportedOn(parsed.previousFindings, f))
    && (forall r :: r in parsed.previousFindings ==> r.id in IdSet(input.previousFindings))
    && (forall r :: r in parsed.previousFindings && Closed(r.status) ==> ctx.closureNote(r.note))
  }

  lemma SameCount(previousFindings: seq<Finding>, reports: seq<PreviousFinding>)
    requires DistinctIds(previousFindings) && ReportIds(reports) == IdSet(previousFindings)
    requires forall i, j :: 0 <= i < j < |reports| ==> reports[i].id != reports[j].id
    ensures |reports| == |previousFindings|
  {
    DistinctReportCount(reports);
    DistinctIdsCount(previousFindings);
  }

  lemma OnlyWithId(previousFindings: seq<Finding>, f: Finding)
    requires DistinctIds(previousFindings) && f in previousFindings
    ensures LastById(previousFindings, f.id) == Some(f)
  {
    var g := LastById(previousFindings, f.id);
    assert f.id in IdSet(previousFindings);
  }

  lemma OneReport(reports: seq<PreviousFinding>, r: PreviousFinding, other: PreviousFinding)
    requires forall i, j :: 0 <= i < j < |reports| ==> reports[i].id != reports[j].id
    requires r in reports && other in reports && r.id == other.id
    ensures r == other
  {
  }

  lemma SoundIds(ctx: Context, input: Input, parsed: Parsed)
    requires Sound(ctx, input, parsed)
    ensures ReportIds(parsed.previousFindings) == IdSet(input.previousFindings)
  {
    forall id
      ensures id in ReportIds(parsed.previousFindings) <==> id in IdSet(input.previousFindings)
    {
      if f :| f in input.previousFindings && f.id == id {
        assert ReportedOn(parsed.previousFindings, f);
      }
    }
  }

  lemma SoundReport(ctx: Context, input: Input, parsed: Parsed, r: PreviousFinding)
    requires Sound(ctx, input, parsed) && r in parsed.previousFindings
    ensures SourceAgrees(input.previousFindings, r)
    ensures !BlockingStatus(r.status) ==> ctx.closureNote(r.note)
  {
    assert r.id in IdSet(input.previousFindings);
    var f :| f in input.previousFindings && f.id == r.id;
    assert ReportedOn(parsed.previousFindings, f);
    OnlyWithId(input.previousFindings, f);
    var other :| other in parsed.previousFindings && other.id == f.id && other.source == f.source;
    OneReport(parsed.previousFindings, r, other);
    StatusIsOpenOrClosed(r.status);
  }

  lemma SoundCovers(ctx: Context, input: Input, parsed: Parsed)
    requires Sound(ctx, input, parsed)
    ensures Trustworthy(ctx, input, parsed)
  {
    hide SourceAgrees, ReportIds, IdSet;
    SoundIds(ctx, input, parsed);
    SameCount(input.previousFindings, parsed.previousFindings);
    forall r | r in parsed.previousFindings
      ensures SourceAgrees(input.previousFindings, r)
      ensures !BlockingStatus(r.status) ==> ctx.closureNote(r.note)
    {
      SoundReport(ctx, input, parsed, r);
    }
  }

  lemma TrustworthyIsSound(ctx: Context, input: Input, parsed: Parsed)
    requires Trustworthy(ctx, input, parsed)
    ensures Sound(ctx, input, parsed)
  {
    forall f | f in input.previousFindings
      ensures ReportedOn(parsed.previousFindings, f)
    {
      var i := ExactReport(input.previousFindings, parsed.previousFindings, f);
      assert parsed.previousFindings[i] in parsed.previousFindings;
    }
    forall r | r in parsed.previousFindings
      ensures r.id in IdSet(input.previousFindings)
      ensures Closed(r.status) ==> ctx.closureNote(r.note)
    {
      assert r.id in ReportIds(parsed.previousFindings);
      StatusIsOpenOrClosed(r.status);
    }
  }

  // ---- Structured comments ----

  lemma NoneReportedOpen(parsed: Parsed)
    ensures ReportIds(ReportedBlocking(parsed)) == {} <==> forall r :: r in parsed.previousFindings ==> Closed(r.status)
  {
    var open := ReportedBlocking(parsed);
    forall r | r in parsed.previousFindings
      ensures Closed(r.status) <==> r !in open
    {
      StatusIsOpenOrClosed(r.status);
    }
    if r :| r in open {
      assert r.id in ReportIds(open);
    }
  }

  lemma NoneKnown(standing: seq<Finding>, previousFindings: seq<Finding>)
    ensures IdSet(standing) * IdSet(previousFindings) == {} <==>
            forall b, f :: b in standing && f in previousFindings ==> b.id != f.id
  {
    if b, f :| b in standing && f in previousFindings && b.id == f.id {
      assert b.id in IdSet(standing) * IdSet(previousFindings);
    }
  }

  lemma ClosureOnlyNew(ctx: Context, input: Input, parsed: Parsed, standing: seq<Finding>)
    requires standing != []
    ensures var m := StructuredMetrics(input, ReportIds(ReportedBlocking(parsed)), standing);
      input.strategy == ClosureFirst && input.previousFindings != [] && m.still == 0 && m.added > 0 <==>
      OnlyNew(input, standing) && forall r :: r in parsed.previousFindings ==> Closed(r.status)
  {
    NoneReportedOpen(parsed);
    NoneKnown(standing, input.previousFindings);
    assert standing[0] in standing;
    var known := IdSet(standing) * IdSet(input.previousFindings);
    hide ReportedBlocking, ReportIds, BlockingStatus, Closed;
    if known == {} {
      assert standing[0].id in IdSet(standing);
      assert standing[0] in NewOnes(standing, input.previousFindings);
    }
  }

  /** What every status of a structured review means, over the comments, the previous and the deterministic findings. */
  lemma StructuredStatusIff(ctx: Context, input: Input, parsed: Parsed, deterministic: seq<Finding>)
    ensures var s := StructuredDecision(ctx, input, parsed, deterministic).status;
      var standing := ActionableBlockers(ctx, input, parsed, deterministic);
      var sound := Sound(ctx, input, parsed);
      var onlyNew := OnlyNew(input, standing) && forall r :: r in parsed.previousFindings ==> Closed(r.status);
      && (s == Success <==> sound && standing == [] && !ctx.needsEvidence)
      && (s == ManualReview(MissingEvidence) <==> sound && standing == [] && ctx.needsEvidence)
      && (s == ManualReview(MalformedFallback) <==> !sound || NeedsPerson(ctx, standing))
      && (s == OperatorInput <==> sound && NeedsOperator(ctx, input, standing))
      && (s == ManualReview(NewBlockersAfterRework) <==> sound && NeedsWork(ctx, input, standing) && onlyNew)
      && (s == RequestChanges <==> sound && NeedsWork(ctx, input, standing) && !onlyNew)
  {
    var standing := ActionableBlockers(ctx, input, parsed, deterministic);
    var metrics := StructuredMetrics(input, ReportIds(ReportedBlocking(parsed)), standing);
    if Trustworthy(ctx, input, parsed) {
      TrustworthyIsSound(ctx, input, parsed);
    }
    if Sound(ctx, input, parsed) {
      SoundCovers(ctx, input, parsed);
    }
    if standing != [] {
      ClosureOnlyNew(ctx, input, parsed, standing);
      EscalateStatus(ctx, input, metrics, standing, RequestChanges);
      EscalateStatus(ctx, input, metrics, standing, ManualReview(NewBlockersAfterRework));
    }
  }

  lemma NoneStands(ctx: Context, blockers: seq<Finding>, id: string)
    requires id in IdSet(blockers) && forall b :: !Stands(ctx, blockers, b)
    ensures CoverageOnly(ctx, blockers) || exists b :: b in blockers && b.id == id && !ctx.actionable(b)
  {
    var b :| b in blockers && b.id == id;
    assert !Stands(ctx, blockers, b);
  }

  /**
    A review passes only when everything that anyone holds against the change is answered: by the reviewers, the
    validators, or as a previous finding; unless all of it is a recoverable failure to cover security areas, each
    raised id's own blocker calls for no action.
   */
  lemma SuccessAnswersEverything(ctx: Context, input: Input, parsed: Parsed, deterministic: seq<Finding>, id: string)
    requires StructuredDecision(ctx, input, parsed, deterministic).status == Success
    requires Raised(ctx, input, parsed, deterministic, id)
    ensures var blockers := StructuredBlockers(ctx, input, parsed, deterministic);
      CoverageOnly(ctx, blockers) || exists b :: b in blockers && b.id == id && !ctx.actionable(b)
  {
    var blockers := StructuredBlockers(ctx, input, parsed, deterministic);
    BlockersAreRaised(ctx, input, parsed, deterministic, id);
    StructuredStatusIff(ctx, input, parsed, deterministic);
    forall b
      ensures !Stands(ctx, blockers, b)
    {
      StandingAre(ctx, input, parsed, deterministic, b);
    }
    hide StructuredBlockers, StructuredDecision, Raised, CoverageOnly;
    NoneStands(ctx, blockers, id);
  }

  // ---- Comments with a list of blockers only, or with none ----

  ghost predicate Answered(ctx: Context, reported: seq<Finding>, deterministic: seq<Finding>) {
    forall b :: b in Merge([reported, deterministic]) ==> !ctx.actionable(b)
  }

  /** What calls for action among what the comments and the validators list. */
  function Current(ctx: Context, reported: seq<Finding>, deterministic: seq<Finding>): seq<Finding> {
    Filter(Merge([reported, deterministic]), ctx.actionable)
  }

  lemma AnsweredIff(ctx: Context, reported: seq<Finding>, deterministic: seq<Finding>)
    ensures Current(ctx, reported, deterministic) == [] <==> Answered(ctx, reported, deterministic)
    ensures forall id :: Answered(ctx, reported, deterministic) && (id in IdSet(reported) || id in IdSet(deterministic)) ==>
              exists b :: b in Merge([reported, deterministic]) && b.id == id && !ctx.actionable(b)
  {
    TwoGroups(reported, deterministic);
    var current := Current(ctx, reported, deterministic);
    if current != [] {
      assert current[0] in current;
    }
    forall id | Answered(ctx, reported, deterministic) && (id in IdSet(reported) || id in IdSet(deterministic))
      ensures exists b :: b in Merge([reported, deterministic]) && b.id == id && !ctx.actionable(b)
    {
      var b :| b in Merge([reported, deterministic]) && b.id == id;
    }
  }

  lemma LegacyOnlyNew(input: Input, current: seq<Finding>)
    requires current != []
    ensures OnlyNew(input, current) <==>
            input.strategy == ClosureFirst && input.previousFindings != [] &&
            KnownOnes(current, input.previousFindings) == [] && NewOnes(current, input.previousFindings) != []
  {
    NoneKnown(current, input.previousFindings);
    var known := KnownOnes(current, input.previousFindings);
    if known != [] {
      assert known[0] in known;
    }
    forall b | b in current
      ensures b.id in IdSet(current)
    {
    }
    assert current[0] in current;
    if known == [] {
      assert current[0] in NewOnes(current, input.previousFindings);
    }
  }

  /** What every status means when the comments only list blockers. */
  lemma LegacyStatusIff(ctx: Context, input: Input, listed: seq<Finding>, deterministic: seq<Finding>)
    ensures var s := LegacyDecision(ctx, input, listed, deterministic).status;
      var current, answered := Current(ctx, listed, deterministic), Answered(ctx, listed, deterministic);
      && (s == Success <==> answered && input.previousFindings == [] && !ctx.needsEvidence)
      && (s == ManualReview(MissingEvidence) <==> answered && input.previousFindings == [] && ctx.needsEvidence)
      && (s == ManualReview(MalformedFallback) <==>
            (answered && input.previousFindings != []) || NeedsPerson(ctx, current))
      && (s == OperatorInput <==> NeedsOperator(ctx, input, current))
      && (s == ManualReview(NewBlockersAfterRework) <==> NeedsWork(ctx, input, current) && OnlyNew(input, current))
      && (s == RequestChanges <==> NeedsWork(ctx, input, current) && !OnlyNew(input, current))
  {
    AnsweredIff(ctx, listed, deterministic);
    var current := Current(ctx, listed, deterministic);
    var metrics := Metrics(|input.previousFindings|, |KnownOnes(current, input.previousFindings)|,
                           |NewOnes(current, input.previousFindings)|, |current|);
    if current != [] {
      LegacyOnlyNew(input, current);
      EscalateStatus(ctx, input, metrics, current, RequestChanges);
      EscalateStatus(ctx, input, metrics, current, ManualReview(NewBlockersAfterRework));
    }
  }

  /** And when the comments have no structure at all: with previous findings a person has to look. */
  lemma UnstructuredStatusIff(ctx: Context, input: Input, extracted: seq<Finding>, deterministic: seq<Finding>)
    ensures var s := FallbackDecision(ctx, input, extracted, deterministic).status;
      var current, answered := Current(ctx, extracted, deterministic), Answered(ctx, extracted, deterministic);
      var first := input.previousFindings == [];
      && (s == Success <==> first && answered && !ctx.needsEvidence)
      && (s == ManualReview(MissingEvidence) <==> first && answered && ctx.needsEvidence)
      && (s == ManualReview(MalformedFallback) <==> !first || NeedsPerson(ctx, current))
      && (s == OperatorInput <==> first && NeedsOperator(ctx, input, current))
      && (s == RequestChanges <==> first && NeedsWork(ctx, input, current))
  {
    AnsweredIff(ctx, extracted, deterministic);
    var current := Current(ctx, extracted, deterministic);
    if current != [] {
      EscalateStatus(ctx, input, Metrics(0, 0, |current|, |current|), current, RequestChanges);
    }
  }

  // ---- Comments that could not be read, or broke their contract ----

  /** A parse error asks for another try, unless the previous review had the same one. */
  lemma ParseErrorStatusIff(ctx: Context, input: Input, error: Finding, deterministic: seq<Finding>)
    ensures var s := ParseErrorDecision(ctx, input, error, deterministic).status;
      && (s == ManualReview(MalformedContract) <==> exists f :: f in input.previousFindings && f.id == error.id)
      && (s == RequestChanges <==> !exists f :: f in input.previousFindings && f.id == error.id)
  {
  }

  /** Another reviewer's finding among all that is known calls for a person. */
  ghost predicate PersonAsked(ctx: Context, findings: seq<Finding>) {
    exists f :: f in findings && f.source != "review_gate" && ctx.manualText(f.text)
  }

  lemma BrokenIsNotEmpty(ctx: Context, specialized: seq<Finding>, deterministic: seq<Finding>)
    ensures Merge([[ctx.contractFinding], specialized, deterministic]) != []
  {
    var groups := [[ctx.contractFinding], specialized, deterministic];
    ConcatIds(groups, 0);
    MergeIds(groups);
    assert ctx.contractFinding in groups[0];
    assert ctx.contractFinding.id in IdSet(Merge(groups));
  }

  lemma PersonAskedEnriched(ctx: Context, input: Input, all: seq<Finding>)
    ensures var enriched := Enrich(all, input.previousFindings, input.iteration);
      (exists f :: f in enriched && f.source != "review_gate" && ctx.manualText(f.text)) <==> PersonAsked(ctx, all)
  {
    EnrichedMembers(all, input);
  }

  /** A broken contract passes only if coverage was all that broke and nothing was open before. */
  lemma ContractStatusIff(ctx: Context, input: Input, specialized: seq<Finding>, deterministic: seq<Finding>)
    ensures var s := ContractHandoff(ctx, input, specialized, deterministic).status;
      var broken := Merge([[ctx.contractFinding], specialized, deterministic]);
      var all := Merge([input.previousFindings, [ctx.contractFinding], specialized, deterministic]);
      var passes := input.previousFindings == [] && CoverageOnly(ctx, broken);
      && (s == Success <==> passes)
      && (s == ManualReview(MalformedContract) <==> !passes && PersonAsked(ctx, all))
      && (s == RequestChanges <==> !passes && !PersonAsked(ctx, all))
  {
    var groups := [[ctx.contractFinding], specialized, deterministic];
    assert [input.previousFindings] + groups ==
           [input.previousFindings, [ctx.contractFinding], specialized, deterministic];
    BrokenIsNotEmpty(ctx, specialized, deterministic);
    PersonAskedEnriched(ctx, input, Merge([input.previousFindings] + groups));
    hide Merge, Enrich, PersonAsked, KeepAll;
  }

  // ---- What a review sends back ----

  /** f as it is persisted: its texts rewritten and normalized, everything else but the streak as it was. */
  ghost predicate PersistedAs(g: Finding, f: Finding, text: string -> string) {
    g.id == f.id && g.source == f.source && g.status == f.status && g.text == text(f.text)
  }

  /** The findings, one by one and in order, as they are persisted. */
  ghost predicate AllPersistedAs(carried: seq<Finding>, findings: seq<Finding>, text: string -> string) {
    |carried| == |findings| && forall i :: 0 <= i < |findings| ==> PersistedAs(carried[i], findings[i], text)
  }

  lemma CarriedAre(ctx: Context, findings: seq<Finding>, input: Input)
    ensures AllPersistedAs(Carried(ctx, findings, input), findings, ctx.normalize)
  {
    var enriched := Enrich(findings, input.previousFindings, input.iteration);
    forall i | 0 <= i < |findings|
      ensures PersistedAs(Carried(ctx, findings, input)[i], findings[i], ctx.normalize)
    {
      assert enriched[i] == EnrichOne(findings[i], input.previousFindings, input.iteration);
    }
  }

  /** Every text of a persisted finding is normalized, and nothing else of it changes. */
  lemma PersistedSays(f: Finding, norm: string -> string)
    ensures var g := Stated(f, norm);
      && g.text == norm(f.text) && g.closureEvidence == TextIfAny(f.closureEvidence, norm)
      && g.details.claim == TextIfAny(f.details.claim, norm)
      && g.details.requiredFix == TextIfAny(f.details.requiredFix, norm)
      && g.details.verification == TextIfAny(f.details.verification, norm)
      && g == f.(text := g.text, closureEvidence := g.closureEvidence,
                 details := f.details.(claim := g.details.claim, requiredFix := g.details.requiredFix,
                                       verification := g.details.verification))
  {
  }

  /** A missing or empty text stays what it is. */
  function TextIfAny(s: Option<string>, norm: string -> string): Option<string> {
    match s
    case None => None
    case Some(t) => if t == "" then Some("") else Some(norm(t))
  }

  /**
    What enriching says: a finding the previous review did not carry is seen for the first time; one that it carried is
    seen again, its streak one longer, and keeps its first sighting if that is known, or gets the one its streak gives.
   */
  lemma EnrichedSays(f: Finding, previousFindings: seq<Finding>, iteration: int)
    ensures var g := EnrichOne(f, previousFindings, iteration); var known := LastById(previousFindings, f.id);
      && g == f.(firstSeen := g.firstSeen, lastSeen := g.lastSeen, streak := g.streak)
      && g.lastSeen == Some(iteration)
      && (f.id !in IdSet(previousFindings) ==> g.firstSeen == Some(iteration) && g.streak == Some(1))
      && (known.Some? ==>
            var p := known.value;
            && (forall n :: p.streak == Some(n) && n >= 1 ==> g.streak == Some(n + 1))
            && (p.streak.None? || p.streak.value < 1 ==> g.streak == Some(2))
            && (forall n :: p.firstSeen == Some(n) && n >= 1 ==> g.firstSeen == p.firstSeen)
            && (p.firstSeen.None? || p.firstSeen.value < 1 ==>
                  g.firstSeen == Some(if iteration < g.streak.value then 1 else iteration - g.streak.value + 1)))
  {
  }

  /** The ids of those that call for a person. */
  ghost function PersonIds(ctx: Context, standing: seq<Finding>): set<string> {
    set b | b in standing && ctx.manualText(b.text) :: b.id
  }

  lemma ManualMember(ctx: Context, standing: seq<Finding>, input: Input, id: string)
    ensures var manual := ManualFindings(ctx, Enrich(standing, input.previousFindings, input.iteration));
      id in IdSet(manual) <==> id in PersonIds(ctx, standing)
  {
    var enriched := Enrich(standing, input.previousFindings, input.iteration);
    var manual := ManualFindings(ctx, enriched);
    EnrichedMembers(standing, input);
    if b :| b in standing && ctx.manualText(b.text) && b.id == id {
      assert EnrichOne(b, input.previousFindings, input.iteration) in manual;
    }
    if e :| e in manual && e.id == id {
      assert e in enriched;
    }
  }

  lemma ManualIds(ctx: Context, standing: seq<Finding>, input: Input)
    ensures var manual := ManualFindings(ctx, Enrich(standing, input.previousFindings, input.iteration));
      IdSet(manual) == PersonIds(ctx, standing) && (manual != [] <==> NeedsPerson(ctx, standing))
  {
    var manual := ManualFindings(ctx, Enrich(standing, input.previousFindings, input.iteration));
    forall id
      ensures id in IdSet(manual) <==> id in PersonIds(ctx, standing)
    {
      ManualMember(ctx, standing, input, id);
    }
    if manual != [] {
      assert manual[0].id in IdSet(manual);
    }
    if b :| b in standing && ctx.manualText(b.text) {
      assert b.id in PersonIds(ctx, standing);
    }
  }

  lemma RewrittenIds(ctx: Context, input: Input, findings: seq<Finding>, text: string -> string)
    ensures IdSet(Carried(ctx, Map(findings, f => Sanitized(f, text, ctx.sanitize)), input)) == IdSet(findings)
  {
    var rewritten := Map(findings, f => Sanitized(f, text, ctx.sanitize));
    SameIdsPointwise(rewritten, findings);
    CarriedIds(ctx, rewritten, input);
  }

  lemma EscalatedIds(ctx: Context, input: Input, metrics: Metrics, standing: seq<Finding>, otherwise: GateStatus)
    ensures IdSet(Escalate(ctx, input, metrics, standing, otherwise).findings) ==
            if NeedsPerson(ctx, standing) then PersonIds(ctx, standing) else IdSet(standing)
  {
    var enriched := Enrich(standing, input.previousFindings, input.iteration);
    ManualIds(ctx, standing, input);
    EnrichIds(standing, input.previousFindings, input.iteration);
    RewrittenIds(ctx, input, ManualFindings(ctx, enriched), ctx.sanitize);
    RewrittenIds(ctx, input, enriched, ctx.askOperator);
    StatedIds(ctx, enriched);
    hide IdSet, Carried, Enrich, ManualFindings, NeedsPerson, PersonIds, ToState, AllOperatorInput;
  }

  /** Previous findings that cannot be taken for closed are sent back with everything that is new. */
  lemma KeptIds(ctx: Context, input: Input, current: seq<seq<Finding>>, status: GateStatus)
    ensures IdSet(KeepAll(ctx, input, current, status).findings) ==
            IdSet(input.previousFindings) + IdSet(Concat(current))
  {
    var merged := Merge([input.previousFindings] + current);
    MergeIds([input.previousFindings] + current);
    GroupIds(input.previousFindings, current);
    CarriedIds(ctx, merged, input);
  }

  lemma OneGroup(a: seq<Finding>)
    ensures Concat([a]) == a
  {
    assert [a] == [a] + [];
    ConcatIsAll([], a);
    assert a + Concat([]) == a;
  }

  lemma SoundIff(ctx: Context, input: Input, parsed: Parsed)
    ensures Sound(ctx, input, parsed) <==> Trustworthy(ctx, input, parsed)
  {
    if Sound(ctx, input, parsed) {
      SoundCovers(ctx, input, parsed);
    }
    if Trustworthy(ctx, input, parsed) {
      TrustworthyIsSound(ctx, input, parsed);
    }
  }

  lemma UntrustedSendsBack(ctx: Context, input: Input, reported: set<string>, standing: seq<Finding>)
    ensures var r := Decide(ctx, input, false, reported, standing);
      r.status == ManualReview(MalformedFallback) && IdSet(r.findings) == IdSet(input.previousFindings) + IdSet(standing)
  {
    KeptIds(ctx, input, [standing], ManualReview(MalformedFallback));
    OneGroup(standing);
  }

  lemma QuietSendsBack(ctx: Context, input: Input, reported: set<string>)
    ensures var r := Decide(ctx, input, true, reported, []);
      if ctx.needsEvidence
      then r.status == ManualReview(MissingEvidence) && AllPersistedAs(r.findings, [ctx.evidenceFinding], ctx.normalize)
      else r.status == Success && r.findings == []
  {
    CarriedAre(ctx, [ctx.evidenceFinding], input);
  }

  lemma EscalatedAs(ctx: Context, input: Input, metrics: Metrics, standing: seq<Finding>, otherwise: GateStatus)
    requires standing != [] && !NeedsPerson(ctx, standing) && !NeedsOperator(ctx, input, standing)
    ensures AllPersistedAs(Escalate(ctx, input, metrics, standing, otherwise).findings, standing, ctx.normalize)
  {
    var enriched := Enrich(standing, input.previousFindings, input.iteration);
    ManualIds(ctx, standing, input);
    CarriedAre(ctx, standing, input);
    EnrichedMembers(standing, input);
  }

  lemma StandingSendsBack(ctx: Context, input: Input, reported: set<string>, standing: seq<Finding>)
    requires standing != []
    ensures var r := Decide(ctx, input, true, reported, standing);
      && IdSet(r.findings) == (if NeedsPerson(ctx, standing) then PersonIds(ctx, standing) else IdSet(standing))
      && (r.status in {RequestChanges, ManualReview(NewBlockersAfterRework)} ==>
            AllPersistedAs(r.findings, standing, ctx.normalize))
      && r.status != Success && r.status != ManualReview(MissingEvidence)
  {
    var metrics := StructuredMetrics(input, reported, standing);
    var otherwise := if input.strategy == ClosureFirst && input.previousFindings != [] && metrics.still == 0 &&
                        metrics.added > 0
                     then ManualReview(NewBlockersAfterRework) else RequestChanges;
    EscalatedIds(ctx, input, metrics, standing, otherwise);
    EscalateStatus(ctx, input, metrics, standing, otherwise);
    if !NeedsPerson(ctx, standing) && !NeedsOperator(ctx, input, standing) {
      EscalatedAs(ctx, input, metrics, standing, otherwise);
    }
    hide Escalate, NeedsPerson, NeedsOperator, NeedsWork, PersonIds, AllPersistedAs, IdSet, StructuredMetrics;
  }

  /** What a structured review sends back: everything when it is not sound, and otherwise what stands. */
  lemma StructuredSendsBack(ctx: Context, input: Input, parsed: Parsed, deterministic: seq<Finding>)
    ensures var r := StructuredDecision(ctx, input, parsed, deterministic);
      var standing := ActionableBlockers(ctx, input, parsed, deterministic);
      && (!Sound(ctx, input, parsed) ==> IdSet(r.findings) == IdSet(input.previousFindings) + IdSet(standing))
      && (Sound(ctx, input, parsed) && standing != [] ==>
            IdSet(r.findings) == if NeedsPerson(ctx, standing) then PersonIds(ctx, standing) else IdSet(standing))
      && (r.status == Success ==> r.findings == [])
      && (r.status == ManualReview(MissingEvidence) ==>
            AllPersistedAs(r.findings, [ctx.evidenceFinding], ctx.normalize))
      && (r.status in {RequestChanges, ManualReview(NewBlockersAfterRework)} ==>
            AllPersistedAs(r.findings, standing, ctx.normalize))
  {
    hide Decide, Sound, Trustworthy, ActionableBlockers, NeedsPerson, PersonIds, AllPersistedAs, IdSet, ReportIds;
    var standing := ActionableBlockers(ctx, input, parsed, deterministic);
    var reported := ReportIds(ReportedBlocking(parsed));
    SoundIff(ctx, input, parsed);
    UntrustedSendsBack(ctx, input, reported, standing);
    QuietSendsBack(ctx, input, reported);
    if standing != [] {
      StandingSendsBack(ctx, input, reported, standing);
    }
  }

  lemma AnsweredSendsBack(ctx: Context, input: Input, metrics: Metrics)
    ensures var r := NoBlockers(ctx, input, metrics);
      if ctx.needsEvidence
      then r.status == ManualReview(MissingEvidence) && AllPersistedAs(r.findings, [ctx.evidenceFinding], ctx.normalize)
      else r.status == Success && r.findings == []
  {
    CarriedAre(ctx, [ctx.evidenceFinding], input);
  }

  /** What comments with a list of blockers only send back: what calls for action, or all that was there before. */
  lemma LegacySendsBack(ctx: Context, input: Input, listed: seq<Finding>, deterministic: seq<Finding>)
    ensures var r := LegacyDecision(ctx, input, listed, deterministic);
      var current := Current(ctx, listed, deterministic);
      && (current != [] ==>
            IdSet(r.findings) == if NeedsPerson(ctx, current) then PersonIds(ctx, current) else IdSet(current))
      && (current == [] && input.previousFindings != [] ==> IdSet(r.findings) == IdSet(input.previousFindings))
      && (r.status == Success ==> r.findings == [])
      && (r.status in {RequestChanges, ManualReview(NewBlockersAfterRework)} ==>
            AllPersistedAs(r.findings, current, ctx.normalize))
  {
    var current := Current(ctx, listed, deterministic);
    var metrics := Metrics(|input.previousFindings|, |KnownOnes(current, input.previousFindings)|,
                           |NewOnes(current, input.previousFindings)|, |current|);
    var otherwise := if input.strategy == ClosureFirst && input.previousFindings != [] &&
                        KnownOnes(current, input.previousFindings) == [] && NewOnes(current, input.previousFindings) != []
                     then ManualReview(NewBlockersAfterRework) else RequestChanges;
    KeptIds(ctx, input, [], ManualReview(MalformedFallback));
    AnsweredSendsBack(ctx, input, metrics);
    if current != [] {
      EscalatedIds(ctx, input, metrics, current, otherwise);
      EscalateStatus(ctx, input, metrics, current, otherwise);
      if !NeedsPerson(ctx, current) && !NeedsOperator(ctx, input, current) {
        EscalatedAs(ctx, input, metrics, current, otherwise);
      }
    }
    hide Escalate, NeedsPerson, NeedsOperator, NeedsWork, PersonIds, AllPersistedAs, NoBlockers, KnownOnes, NewOnes,
      Carried;
  }

  /** What unstructured comments send back: with previous findings those as well, none of them taken for closed. */
  lemma UnstructuredSendsBack(ctx: Context, input: Input, extracted: seq<Finding>, deterministic: seq<Finding>)
    ensures var r := FallbackDecision(ctx, input, extracted, deterministic);
      var current := Current(ctx, extracted, deterministic);
      && (input.previousFindings != [] ==> IdSet(r.findings) == IdSet(input.previousFindings) + IdSet(current))
      && (input.previousFindings == [] && current != [] ==>
            IdSet(r.findings) == if NeedsPerson(ctx, current) then PersonIds(ctx, current) else IdSet(current))
      && (r.status == Success ==> r.findings == [])
      && (r.status == RequestChanges ==> AllPersistedAs(r.findings, current, ctx.normalize))
  {
    var current := Current(ctx, extracted, deterministic);
    var metrics := Metrics(0, 0, |current|, |current|);
    KeptIds(ctx, input, [current], ManualReview(MalformedFallback));
    OneGroup(current);
    AnsweredSendsBack(ctx, input, metrics);
    if current != [] {
      EscalatedIds(ctx, input, metrics, current, RequestChanges);
      EscalateStatus(ctx, input, metrics, current, RequestChanges);
      if !NeedsPerson(ctx, current) && !NeedsOperator(ctx, input, current) {
        EscalatedAs(ctx, input, metrics, current, RequestChanges);
      }
    }
    hide Escalate, NeedsPerson, NeedsOperator, NeedsWork, PersonIds, AllPersistedAs, NoBlockers, IdSet, Carried;
  }

  /** A parse error sends back everything known and itself. */
  lemma ParseErrorSendsBack(ctx: Context, input: Input, error: Finding, deterministic: seq<Finding>)
    ensures IdSet(ParseErrorDecision(ctx, input, error, deterministic).findings) ==
            IdSet(input.previousFindings) + {error.id} + IdSet(deterministic)
  {
    var status := ParseErrorDecision(ctx, input, error, deterministic).status;
    KeptIds(ctx, input, [[error], deterministic], status);
    TwoIds(error, deterministic);
    hide IdSet, Carried;
  }

  lemma TwoIds(f: Finding, b: seq<Finding>)
    ensures IdSet(Concat([[f], b])) == {f.id} + IdSet(b)
  {
    assert [[f], b] == [[f]] + [b];
    GroupIds([f], [b]);
    OneGroup(b);
    assert IdSet([f]) == {f.id};
  }

  lemma ThreeGroups(f: Finding, b: seq<Finding>, c: seq<Finding>)
    ensures IdSet(Concat([[f], b, c])) == {f.id} + IdSet(b) + IdSet(c)
  {
    assert [[f], b, c] == [[f]] + [b, c] && [b, c] == [b] + [c];
    GroupIds([f], [b, c]);
    GroupIds(b, [c]);
    OneGroup(c);
    assert IdSet([f]) == {f.id};
  }

  /** A broken contract that does not pass sends back everything known, and itself. */
  lemma ContractSendsBack(ctx: Context, input: Input, specialized: seq<Finding>, deterministic: seq<Finding>)
    ensures var r := ContractHandoff(ctx, input, specialized, deterministic);
      if r.status == Success then r.findings == []
      else IdSet(r.findings) ==
           IdSet(input.previousFindings) + {ctx.contractFinding.id} + IdSet(specialized) + IdSet(deterministic)
  {
    var groups := [[ctx.contractFinding], specialized, deterministic];
    KeptIds(ctx, input, groups, ManualReview(MalformedContract));
    KeptIds(ctx, input, groups, RequestChanges);
    ThreeGroups(ctx.contractFinding, specialized, deterministic);
    hide IdSet, Enrich, Merge, Recoverable, Carried;
  }

  /** A sound review's metrics are those of what stands, one more if the evidence is missing. */
  lemma SoundMetrics(ctx: Context, input: Input, parsed: Parsed, deterministic: seq<Finding>)
    requires Sound(ctx, input, parsed)
    ensures var r := StructuredDecision(ctx, input, parsed, deterministic);
      var m := StructuredMetrics(input, ReportIds(ReportedBlocking(parsed)),
                                 ActionableBlockers(ctx, input, parsed, deterministic));
      r.metrics == if r.status == ManualReview(MissingEvidence) then m.(added := m.added + 1, total := m.total + 1) else m
  {
    hide Sound, Trustworthy, ActionableBlockers, StructuredMetrics, ReportIds, ReportedBlocking, Escalate, Carried;
    var actionable := ActionableBlockers(ctx, input, parsed, deterministic);
    var metrics := StructuredMetrics(input, ReportIds(ReportedBlocking(parsed)), actionable);
    SoundIff(ctx, input, parsed);
    var otherwise := if input.strategy == ClosureFirst && input.previousFindings != [] && metrics.still == 0 &&
                        metrics.added > 0
                     then ManualReview(NewBlockersAfterRework) else RequestChanges;
    EscalateKeepsMetrics(ctx, input, metrics, actionable, otherwise);
    if actionable != [] {
      EscalateStatus(ctx, input, metrics, actionable, otherwise);
    }
  }

  /** The numbers of a sound review: previous, still blocking, new and standing, each finding counted once. */
  lemma StructuredNumbers(ctx: Context, input: Input, parsed: Parsed, deterministic: seq<Finding>)
    requires Sound(ctx, input, parsed)
    ensures var r := StructuredDecision(ctx, input, parsed, deterministic);
      var standing := IdSet(ActionableBlockers(ctx, input, parsed, deterministic));
      var previous := IdSet(input.previousFindings);
      var missing := if r.status == ManualReview(MissingEvidence) then 1 else 0;
      && r.metrics.previous == |previous|
      && r.metrics.still == |(set r | r in parsed.previousFindings && !Closed(r.status) :: r.id) + standing * previous|
      && r.metrics.added == |standing - previous| + missing
      && r.metrics.total == |standing| + missing
  {
    hide Sound, ActionableBlockers, StructuredMetrics, ReportIds, StructuredDecision, DistinctIds;
    SoundMetrics(ctx, input, parsed, deterministic);
    ActionableDistinct(ctx, input, parsed, deterministic);
    NumbersOf(input, parsed, ActionableBlockers(ctx, input, parsed, deterministic));
    PreviousAreDistinct(ctx, input, parsed);
  }

  lemma PreviousAreDistinct(ctx: Context, input: Input, parsed: Parsed)
    requires Sound(ctx, input, parsed)
    ensures |IdSet(input.previousFindings)| == |input.previousFindings|
  {
    DistinctIdsCount(input.previousFindings);
  }

  lemma NumbersOf(input: Input, parsed: Parsed, actionable: seq<Finding>)
    requires DistinctIds(actionable)
    ensures var m := StructuredMetrics(input, ReportIds(ReportedBlocking(parsed)), actionable);
      var standing, previous := IdSet(actionable), IdSet(input.previousFindings);
      && m.previous == |input.previousFindings|
      && m.still == |(set r | r in parsed.previousFindings && !Closed(r.status) :: r.id) + standing * previous|
      && m.added == |standing - previous| && m.total == |standing|
  {
    DistinctIdsCount(actionable);
    NewIds(actionable, input.previousFindings);
    var open := set r | r in parsed.previousFindings && !Closed(r.status) :: r.id;
    forall id
      ensures id in open <==> id in ReportIds(ReportedBlocking(parsed))
    {
      OpenReportIds(parsed, id);
      forall r: PreviousFinding
        ensures BlockingStatus(r.status) <==> !Closed(r.status)
      {
        StatusIsOpenOrClosed(r.status);
      }
    }
    assert open == ReportIds(ReportedBlocking(parsed));
  }

  lemma NewIds(findings: seq<Finding>, previousFindings: seq<Finding>)
    requires DistinctIds(findings)
    ensures |NewOnes(findings, previousFindings)| == |IdSet(findings) - IdSet(previousFindings)|
  {
    var added := NewOnes(findings, previousFindings);
    FilterDistinct(findings, (f: Finding) => f.id !in IdSet(previousFindings));
    forall id | id in IdSet(findings) - IdSet(previousFindings)
      ensures id in IdSet(added)
    {
      var f :| f in findings && f.id == id;
      assert f in added;
    }
    assert IdSet(added) == IdSet(findings) - IdSet(previousFindings);
    DistinctIdsCount(added);
  }
}
