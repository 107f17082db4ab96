/**
  Building the canonical review from all reviewers (packages/agent/src/reviewContract.ts:770-781, 842-943):
  what is listed as blocking, what becomes an advisory, and that the result can be read back.
 */
module ReviewBuild {
  import opened Collections
  import opened InsertionMap
  import opened ReviewFindings
  import opened ReviewRows
  import opened ReviewComments
  import opened ReviewMerge

  datatype Sidecar = Sidecar(
    blockingFindings: seq<Finding>, advisories: seq<Advisory>, previousFindings: seq<PreviousFinding>,
    securityCoverage: seq<Coverage>)

  datatype RoleReview = RoleReview(
    role: string, blockingFindings: seq<Finding>, advisories: seq<Advisory>, previousFindings: seq<PreviousFinding>)

  datatype Reviews = Reviews(
    strategy: Strategy, iteration: int, codeReview: Sidecar, securityAudit: Sidecar, specialized: seq<RoleReview>,
    expected: Expected)

  /**
    asksForEvidence: a text that only asks for evidence from the repository; paths: the paths a text names;
    reference: the reviewer it cites; the last two word the advisories that replace a finding.
   */
  datatype Rules = Rules(
    norm: string -> string, asksForEvidence: string -> bool, paths: string -> seq<string>,
    reference: string -> Option<string>, demotedText: seq<string> -> string, staleText: string -> string)

  // ---- The inputs in order ----

  function AllPrevious(r: Reviews): seq<PreviousFinding> {
    r.codeReview.previousFindings + r.securityAudit.previousFindings +
    Concat(Map(r.specialized, (x: RoleReview) => x.previousFindings))
  }

  function AllAdvisories(r: Reviews): seq<Advisory> {
    r.codeReview.advisories + r.securityAudit.advisories + Concat(Map(r.specialized, (x: RoleReview) => x.advisories))
  }

  function AllBlocking(r: Reviews): seq<Finding> {
    r.codeReview.blockingFindings + r.securityAudit.blockingFindings +
    Concat(Map(r.specialized, (x: RoleReview) => x.blockingFindings))
  }

  predicate Passed(review: RoleReview) {
    review.blockingFindings == [] && forall f :: f in review.previousFindings ==> !BlockingStatus(f.status)
  }

  function PassedRoles(r: Reviews): set<string> {
    set x | x in r.specialized && Passed(x) :: x.role
  }

  // ---- The blocking list ----

  type Blocking = OrderedMap<string, Finding>

  function FromPrevious(f: PreviousFinding, norm: string -> string): Finding {
    Finding(f.id, f.source, norm(f.note), Some(f.status),
            Some(norm(if f.closureEvidence.Some? then f.closureEvidence.value else f.note)), NoDetails, None, None, None)
  }

  function KeepPrevious(blocking: Blocking, f: PreviousFinding, norm: string -> string): Blocking {
    if BlockingStatus(f.status) then blocking.Put(f.id, FromPrevious(f, norm)) else blocking
  }

  function KeptPrevious(previousFindings: seq<PreviousFinding>, norm: string -> string): Blocking {
    if previousFindings == [] then Empty()
    else KeepPrevious(KeptPrevious(previousFindings[..|previousFindings| - 1], norm),
                      previousFindings[|previousFindings| - 1], norm)
  }

  datatype Build = Build(blocking: Blocking, advisories: seq<Advisory>)

  /** An advisory of another source names the path. */
  predicate InspectedElsewhere(path: string, source: string, advisories: seq<Advisory>, rules: Rules) {
    exists a :: a in advisories && a.source != source && path in rules.paths(a.text)
  }

  /** The paths that a finding only asks to see and that others inspected already. */
  function CoveredPaths(f: Finding, advisories: seq<Advisory>, rules: Rules): seq<string> {
    if rules.asksForEvidence(f.text)
    then Filter(rules.paths(f.text), path => InspectedElsewhere(path, f.source, advisories, rules))
    else []
  }

  predicate Stale(f: Finding, rules: Rules, passed: set<string>) {
    var source := rules.reference(f.text);
    source.Some? && source.value != f.source && source.value in passed
  }

  function Normalized(f: Finding, norm: string -> string): Finding {
    f.(text := norm(f.text), closureEvidence := Rewritten(f.closureEvidence, norm))
  }

  function AddBlocking(b: Build, f: Finding, rules: Rules, passed: set<string>): Build {
    var covered := CoveredPaths(f, b.advisories, rules);
    if covered != [] then b.(advisories := b.advisories + [Advisory(f.source, rules.demotedText(covered))])
    else if Stale(f, rules, passed) then
      b.(advisories := b.advisories + [Advisory(f.source, rules.staleText(rules.reference(f.text).value))])
    else b.(blocking := b.blocking.Put(f.id, Normalized(f, rules.norm)))
  }

  function AddAllBlocking(b: Build, findings: seq<Finding>, rules: Rules, passed: set<string>): Build
    decreases |findings|
  {
    if findings == [] then b
    else AddBlocking(AddAllBlocking(b, findings[..|findings| - 1], rules, passed), findings[|findings| - 1],
                     rules, passed)
  }

  // ---- Coverage ----

  function LastCoverage(coverage: seq<Coverage>, area: string): Option<Coverage> {
    if coverage == [] then None
    else if coverage[|coverage| - 1].area == area then Some(coverage[|coverage| - 1])
    else LastCoverage(coverage[..|coverage| - 1], area)
  }

  function PickCoverage(coverage: seq<Coverage>, areas: seq<string>): seq<Coverage> {
    if areas == [] then []
    else
      var c := LastCoverage(coverage, areas[0]);
      (if c.Some? then [c.value] else []) + PickCoverage(coverage, areas[1..])
  }

  function MergeCoverage(r: Reviews): seq<Coverage> {
    PickCoverage(r.codeReview.securityCoverage + r.securityAudit.securityCoverage, RequiredAreas)
  }

  // ---- The review that is printed ----

  function MergedPrevious(r: Reviews, norm: string -> string): Merged {
    MergeReports(AllPrevious(r), r.expected, norm)
  }

  ghost function BuildComments(r: Reviews, rules: Rules): Comments
    requires MergedPrevious(r, rules.norm).Valid()
    requires BuildLists(r, rules).blocking.Valid()
  {
    var lists := BuildLists(r, rules);
    Comments(r.strategy, r.iteration, MergedPrevious(r, rules.norm).Values(), lists.blocking.Values(),
             lists.advisories, MergeCoverage(r))
  }

  ghost function BuildLists(r: Reviews, rules: Rules): Build
    requires MergedPrevious(r, rules.norm).Valid()
  {
    AddAllBlocking(Build(KeptPrevious(MergedPrevious(r, rules.norm).Values(), rules.norm), AllAdvisories(r)),
                   AllBlocking(r), rules, PassedRoles(r))
  }

  // ---- What is listed ----

  ghost predicate WellKeyed(blocking: Blocking) {
    blocking.Valid() && forall id :: id in blocking.entries ==> blocking.entries[id].id == id
  }

  lemma PutKeyed(blocking: Blocking, f: Finding)
    requires WellKeyed(blocking)
    ensures WellKeyed(blocking.Put(f.id, f))
  {
    PutKeepsValid(blocking, f.id, f);
  }

  lemma {:induction false} KeptPreviousListed(previousFindings: seq<PreviousFinding>, norm: string -> string)
    ensures WellKeyed(KeptPrevious(previousFindings, norm))
    ensures forall f :: f in previousFindings && BlockingStatus(f.status) ==> f.id in KeptPrevious(previousFindings, norm).entries
  {
    if previousFindings != [] {
      var before, last := previousFindings[..|previousFindings| - 1], previousFindings[|previousFindings| - 1];
      KeptPreviousListed(before, norm);
      PutKeyed(KeptPrevious(before, norm), FromPrevious(last, norm));
      assert previousFindings == before + [last];
    }
  }

  /** What happened to a reviewer's finding: it is listed, or an advisory under its source says why not. */
  ghost predicate Accounted(b: Build, f: Finding) {
    f.id in b.blocking.entries || exists a :: a in b.advisories && a.source == f.source
  }

  lemma {:induction false} NothingIsDropped(b: Build, findings: seq<Finding>, rules: Rules, passed: set<string>)
    requires WellKeyed(b.blocking)
    ensures var after := AddAllBlocking(b, findings, rules, passed);
      && WellKeyed(after.blocking)
      && Grows(b, after)
      && (forall f :: f in findings ==> Accounted(after, f))
    decreases |findings|
  {
    if findings != [] {
      var init, last := findings[..|findings| - 1], findings[|findings| - 1];
      NothingIsDropped(b, init, rules, passed);
      OneMoreAccounted(AddAllBlocking(b, init, rules, passed), init, last, rules, passed);
      assert findings == init + [last];
    }
  }

  ghost predicate Grows(b: Build, after: Build) {
    && b.blocking.entries.Keys <= after.blocking.entries.Keys
    && forall a :: a in b.advisories ==> a in after.advisories
  }

  lemma AddingGrows(b: Build, f: Finding, rules: Rules, passed: set<string>)
    requires WellKeyed(b.blocking)
    ensures var after := AddBlocking(b, f, rules, passed);
      WellKeyed(after.blocking) && Grows(b, after) && Accounted(after, f)
  {
    var after := AddBlocking(b, f, rules, passed);
    PutKeyed(b.blocking, Normalized(f, rules.norm));
    if after.advisories != b.advisories {
      assert after.advisories[|b.advisories|] in after.advisories;
    }
  }

  lemma StillAccounted(b: Build, after: Build, f: Finding)
    requires Grows(b, after) && Accounted(b, f)
    ensures Accounted(after, f)
  {
  }

  lemma OneMoreAccounted(b: Build, findings: seq<Finding>, f: Finding, rules: Rules, passed: set<string>)
    requires WellKeyed(b.blocking)
    requires forall g :: g in findings ==> Accounted(b, g)
    ensures var after := AddBlocking(b, f, rules, passed);
      && WellKeyed(after.blocking) && Grows(b, after) && Accounted(after, f)
      && forall g :: g in findings ==> Accounted(after, g)
  {
    AddingGrows(b, f, rules, passed);
    forall g | g in findings
      ensures Accounted(AddBlocking(b, f, rules, passed), g)
    {
      StillAccounted(b, AddBlocking(b, f, rules, passed), g);
    }
  }

  lemma KeyedIdsListed(blocking: Blocking, id: string)
    requires WellKeyed(blocking) && id in blocking.entries
    ensures id in IdSet(blocking.Values())
  {
    var i :| 0 <= i < |blocking.keys| && blocking.keys[i] == id;
    assert blocking.Values()[i] in blocking.Values();
  }

  lemma BuildIsValid(r: Reviews, rules: Rules)
    ensures MergedPrevious(r, rules.norm).Valid()
    ensures WellKeyed(BuildLists(r, rules).blocking)
  {
    MergeIsFaithful(AllPrevious(r), r.expected, rules.norm);
    KeptPreviousListed(MergedPrevious(r, rules.norm).Values(), rules.norm);
    NothingIsDropped(Build(KeptPrevious(MergedPrevious(r, rules.norm).Values(), rules.norm), AllAdvisories(r)),
                     AllBlocking(r), rules, PassedRoles(r));
  }

  /**
    Every merged finding whose status is blocking is in the blocking list, whatever the demotion and
    stale-source rules do; and a reviewer's finding is listed or accounted for by an advisory.
   */
  lemma BlockingPreviousAreListed(r: Reviews, rules: Rules)
    ensures MergedPrevious(r, rules.norm).Valid() && BuildLists(r, rules).blocking.Valid()
    ensures forall f :: f in BuildComments(r, rules).previousFindings && BlockingStatus(f.status) ==>
              f.id in IdSet(BuildComments(r, rules).blockingFindings)
    ensures forall f :: f in AllBlocking(r) ==> Accounted(BuildLists(r, rules), f)
  {
    BuildIsValid(r, rules);
    var merged := MergedPrevious(r, rules.norm).Values();
    var start := Build(KeptPrevious(merged, rules.norm), AllAdvisories(r));
    KeptPreviousListed(merged, rules.norm);
    NothingIsDropped(start, AllBlocking(r), rules, PassedRoles(r));
    forall f | f in merged && BlockingStatus(f.status)
      ensures f.id in IdSet(BuildComments(r, rules).blockingFindings)
    {
      KeyedIdsListed(BuildLists(r, rules).blocking, f.id);
    }
  }

  // ---- The loops ----

  method KeepBlockingPrevious(previousFindings: seq<PreviousFinding>, norm: string -> string)
    returns (blocking: Blocking)
    ensures blocking == KeptPrevious(previousFindings, norm)
  {
    blocking := Empty();
    for i := 0 to |previousFindings|
      invariant blocking == KeptPrevious(previousFindings[..i], norm)
    {
      assert previousFindings[..i + 1][..i] == previousFindings[..i];
      var f := previousFindings[i];
      if !BlockingStatus(f.status) {
        continue;
      }
      blocking := blocking.Put(f.id, FromPrevious(f, norm));
    }
    assert previousFindings[..|previousFindings|] == previousFindings;
  }

  method AddReviewerBlocking(start: Build, candidates: seq<Finding>, rules: Rules, passed: set<string>)
    returns (build: Build)
    ensures build == AddAllBlocking(start, candidates, rules, passed)
  {
    build := start;
    for i := 0 to |candidates|
      invariant build == AddAllBlocking(start, candidates[..i], rules, passed)
    {
      assert candidates[..i + 1][..i] == candidates[..i];
      var f := candidates[i];
      var covered := CoveredPaths(f, build.advisories, rules);
      if covered != [] {
        build := build.(advisories := build.advisories + [Advisory(f.source, rules.demotedText(covered))]);
        continue;
      }
      var source := rules.reference(f.text);
      if source.Some? && source.value != f.source && source.value in passed {
        build := build.(advisories := build.advisories + [Advisory(f.source, rules.staleText(source.value))]);
        continue;
      }
      build := build.(blocking := build.blocking.Put(f.id, Normalized(f, rules.norm)));
    }
    assert candidates[..|candidates|] == candidates;
  }
}
