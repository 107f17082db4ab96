/**
  From the reviewers' parsed output to the parsed comments: what is built can be printed and read back,
  and no blocking verdict on a previous finding is lost on the way
  (packages/agent/src/reviewContract.ts:854-1167).
 */
module ReviewEndToEnd {
  import opened Collections
  import opened ReviewText
  import opened ReviewFindings
  import opened ReviewRows
  import opened ReviewComments
  import opened ReviewRoundTrip
  import opened ReviewDocument
  import opened ReviewMerge
  import opened ReviewBuild

  /** Normalizing never empties a text that has something visible in it. */
  ghost predicate KeepsText(norm: string -> string) {
    forall t: string, i :: 0 <= i < |t| && !White(t[i]) ==> norm(t) != ""
  }

  /** Whitespace normalization alone keeps every visible text. */
  lemma CollapseKeepsText()
    ensures KeepsText(Collapse)
  {
    forall t: string, i | 0 <= i < |t| && !White(t[i])
      ensures Collapse(t) != ""
    {
      var j := SqueezeKeepsVisible(t, i);
      TrimKeepsVisible(Squeeze(t), j);
    }
  }

  ghost predicate AllPrintable(r: Reviews, norm: string -> string) {
    && (forall f :: f in AllPrevious(r) ==> PrintablePrevious(f, norm))
    && (forall f :: f in AllBlocking(r) ==> PrintableBlocking(f, norm))
    && (forall a :: a in AllAdvisories(r) ==> PrintableAdvisory(a, norm))
  }

  function BothCoverages(r: Reviews): seq<Coverage> {
    r.codeReview.securityCoverage + r.securityAudit.securityCoverage
  }

  /** The advisories that replace findings have a text. */
  ghost predicate WordedAdvisories(rules: Rules) {
    && (forall paths :: rules.norm(rules.demotedText(paths)) != "")
    && (forall source :: rules.norm(rules.staleText(source)) != "")
  }

  /** What the sidecar parsers guarantee, and known sources for the expected findings. */
  ghost predicate GoodInputs(r: Reviews, rules: Rules) {
    && Normalizes(rules.norm) && KeepsText(rules.norm)
    && 1 <= r.iteration <= MaxSafeInteger
    && AllPrintable(r, rules.norm)
    && (r.expected.Some? ==> forall id :: id in r.expected.value ==> r.expected.value[id] in Sources)
    && WordedAdvisories(rules)
    && (forall c :: c in BothCoverages(r) ==> PrintableCoverage(c, rules.norm))
    && Elements(RequiredAreas) <= AreasOf(BothCoverages(r))
  }

  // ---- Merged previous findings ----

  lemma ConsolidatedPrintable(e: PreviousFinding, f: PreviousFinding, norm: string -> string)
    requires Normalizes(norm) && KeepsText(norm)
    requires PrintablePrevious(e, norm) && PrintablePrevious(f, norm) && e.id == f.id
    ensures PrintablePrevious(Consolidate(e, f, norm), norm)
  {
    var selected := if Priority(f.status) > Priority(e.status) then f else e;
    if e.note != f.note {
      var text := ConflictNote(selected.note, e, f);
      assert text[|text| - 1] == '.';
      assert norm(text) != "";
    }
  }

  ghost predicate SourcesKnown(expected: Expected) {
    expected.Some? ==> forall id :: id in expected.value ==> expected.value[id] in Sources
  }

  ghost predicate EntriesPrintable(m: Merged, norm: string -> string) {
    forall id :: id in m.entries ==> m.entries[id].id == id && PrintablePrevious(m.entries[id], norm)
  }

  lemma ReportPrintable(m: Merged, f: PreviousFinding, expected: Expected, norm: string -> string)
    requires Normalizes(norm) && KeepsText(norm) && SourcesKnown(expected)
    requires EntriesPrintable(m, norm) && PrintablePrevious(f, norm)
    ensures EntriesPrintable(MergeReport(m, f, expected, norm), norm)
  {
    if Counts(f, expected) {
      var report := UnderExpectedSource(f, expected);
      assert PrintablePrevious(report, norm);
      if f.id in m.entries {
        ConsolidatedPrintable(m.entries[f.id], report, norm);
      }
    }
  }

  lemma {:induction false} MergedPrintable(reports: seq<PreviousFinding>, expected: Expected, norm: string -> string)
    requires Normalizes(norm) && KeepsText(norm) && SourcesKnown(expected)
    requires forall f :: f in reports ==> PrintablePrevious(f, norm)
    ensures EntriesPrintable(MergeReports(reports, expected, norm), norm)
  {
    if reports != [] {
      var init := reports[..|reports| - 1];
      assert forall f :: f in init ==> f in reports;
      MergedPrintable(init, expected, norm);
      ReportPrintable(MergeReports(init, expected, norm), reports[|reports| - 1], expected, norm);
    }
  }

  lemma ValuesPrintable(m: Merged, norm: string -> string)
    requires m.Valid() && EntriesPrintable(m, norm)
    ensures DistinctPrevious(m.Values())
    ensures forall i :: 0 <= i < |m.Values()| ==> PrintablePrevious(m.Values()[i], norm)
    ensures PreviousIds(m.Values()) == m.entries.Keys
  {
    hide PrintablePrevious;
    var values := m.Values();
    forall i | 0 <= i < |values|
      ensures m.keys[i] in m.entries && values[i].id == m.keys[i] && PrintablePrevious(values[i], norm)
    {
      assert m.keys[i] in m.keys;
    }
    forall id | id in m.entries
      ensures id in PreviousIds(values)
    {
      var i :| 0 <= i < |m.keys| && m.keys[i] == id;
      assert values[i] in values;
    }
  }

  // ---- The blocking list and the advisories ----

  ghost predicate BlockingPrintable(blocking: Blocking, norm: string -> string) {
    forall id :: id in blocking.entries ==> PrintableBlocking(blocking.entries[id], norm)
  }

  lemma {:induction false} KeptPrintable(previousFindings: seq<PreviousFinding>, norm: string -> string)
    requires Normalizes(norm)
    requires forall i :: 0 <= i < |previousFindings| ==> PrintablePrevious(previousFindings[i], norm)
    ensures BlockingPrintable(KeptPrevious(previousFindings, norm), norm)
  {
    if previousFindings != [] {
      var last := previousFindings[|previousFindings| - 1];
      KeptPrintable(previousFindings[..|previousFindings| - 1], norm);
      assert PrintableBlocking(FromPrevious(last, norm), norm);
    }
  }

  ghost predicate BuildPrintable(b: Build, norm: string -> string) {
    BlockingPrintable(b.blocking, norm) && forall i :: 0 <= i < |b.advisories| ==> PrintableAdvisory(b.advisories[i], norm)
  }

  lemma AddPrintable(b: Build, f: Finding, rules: Rules, passed: set<string>)
    requires Normalizes(rules.norm) && BuildPrintable(b, rules.norm) && PrintableBlocking(f, rules.norm)
    requires WordedAdvisories(rules)
    ensures BuildPrintable(AddBlocking(b, f, rules, passed), rules.norm)
  {
    assert PrintableBlocking(Normalized(f, rules.norm), rules.norm);
  }

  lemma {:induction false} AddAllPrintable(b: Build, findings: seq<Finding>, rules: Rules, passed: set<string>)
    requires Normalizes(rules.norm) && BuildPrintable(b, rules.norm)
    requires forall f :: f in findings ==> PrintableBlocking(f, rules.norm)
    requires WordedAdvisories(rules)
    ensures BuildPrintable(AddAllBlocking(b, findings, rules, passed), rules.norm)
    decreases |findings|
  {
    if findings != [] {
      var init := findings[..|findings| - 1];
      assert forall f :: f in init ==> f in findings;
      AddAllPrintable(b, init, rules, passed);
      AddPrintable(AddAllBlocking(b, init, rules, passed), findings[|findings| - 1], rules, passed);
    }
  }

  lemma BlockingValuesPrintable(blocking: Blocking, norm: string -> string)
    requires blocking.Valid() && BlockingPrintable(blocking, norm)
    ensures forall i :: 0 <= i < |blocking.Values()| ==> PrintableBlocking(blocking.Values()[i], norm)
  {
    forall i | 0 <= i < |blocking.keys|
      ensures PrintableBlocking(blocking.Values()[i], norm)
    {
      assert blocking.keys[i] in blocking.keys;
    }
  }

  // ---- Coverage ----

  lemma {:induction false} LastCoverageFound(coverage: seq<Coverage>, area: string)
    requires area in AreasOf(coverage)
    ensures LastCoverage(coverage, area).Some?
    ensures LastCoverage(coverage, area).value in coverage && LastCoverage(coverage, area).value.area == area
  {
    if coverage[|coverage| - 1].area != area {
      var c :| c in coverage && c.area == area;
      assert coverage == coverage[..|coverage| - 1] + [coverage[|coverage| - 1]];
      assert c in coverage[..|coverage| - 1];
      LastCoverageFound(coverage[..|coverage| - 1], area);
    }
  }

  lemma {:induction false} PickedCoverage(coverage: seq<Coverage>, areas: seq<string>)
    requires Elements(areas) <= AreasOf(coverage)
    ensures |PickCoverage(coverage, areas)| == |areas|
    ensures forall i :: 0 <= i < |areas| ==>
              PickCoverage(coverage, areas)[i].area == areas[i] && PickCoverage(coverage, areas)[i] in coverage
  {
    if areas != [] {
      assert areas[0] in Elements(areas);
      LastCoverageFound(coverage, areas[0]);
      assert Elements(areas[1..]) <= Elements(areas);
      PickedCoverage(coverage, areas[1..]);
    }
  }

  lemma AreasDistinct()
    ensures forall i, j :: 0 <= i < j < |RequiredAreas| ==> RequiredAreas[i] != RequiredAreas[j]
  {
    assert |RequiredAreas[0]| == 12 && |RequiredAreas[1]| == 19 && |RequiredAreas[2]| == 25 && |RequiredAreas[3]| == 17;
  }

  lemma PickedAreas(coverage: seq<Coverage>, areas: seq<string>)
    requires Elements(areas) <= AreasOf(coverage)
    requires forall i, j :: 0 <= i < j < |areas| ==> areas[i] != areas[j]
    ensures DistinctAreas(PickCoverage(coverage, areas))
    ensures Elements(areas) <= AreasOf(PickCoverage(coverage, areas))
  {
    PickedCoverage(coverage, areas);
    var picked := PickCoverage(coverage, areas);
    forall area | area in Elements(areas)
      ensures area in AreasOf(picked)
    {
      var i :| 0 <= i < |areas| && areas[i] == area;
      assert picked[i] in picked;
    }
  }

  // ---- The whole way ----

  lemma BuiltRows(r: Reviews, rules: Rules)
    requires GoodInputs(r, rules)
    ensures MergedPrevious(r, rules.norm).Valid() && BuildLists(r, rules).blocking.Valid()
    ensures EntriesPrintable(MergedPrevious(r, rules.norm), rules.norm)
    ensures BuildPrintable(BuildLists(r, rules), rules.norm)
  {
    var norm := rules.norm;
    BuildIsValid(r, rules);
    MergedPrintable(AllPrevious(r), r.expected, norm);
    var merged := MergedPrevious(r, norm);
    ValuesPrintable(merged, norm);
    KeptPrintable(merged.Values(), norm);
    AddAllPrintable(Build(KeptPrevious(merged.Values(), norm), AllAdvisories(r)), AllBlocking(r), rules, PassedRoles(r));
  }

  lemma BuiltIsPrintable(r: Reviews, rules: Rules)
    requires GoodInputs(r, rules)
    ensures MergedPrevious(r, rules.norm).Valid() && BuildLists(r, rules).blocking.Valid()
    ensures Printable(BuildComments(r, rules), rules.norm)
    ensures PreviousIds(BuildComments(r, rules).previousFindings) == MergedPrevious(r, rules.norm).entries.Keys
  {
    BuiltRows(r, rules);
    ValuesPrintable(MergedPrevious(r, rules.norm), rules.norm);
    BlockingValuesPrintable(BuildLists(r, rules).blocking, rules.norm);
    AreasDistinct();
    PickedCoverage(BothCoverages(r), RequiredAreas);
    PickedAreas(BothCoverages(r), RequiredAreas);
  }

  /** Every expected finding was reported by someone. */
  ghost predicate AllReported(r: Reviews, expected: map<string, string>) {
    forall id :: id in expected ==> Reported(AllPrevious(r), r.expected, id)
  }

  lemma BuiltReports(r: Reviews, rules: Rules, expected: map<string, string>)
    requires GoodInputs(r, rules)
    requires r.expected == Some(expected) && AllReported(r, expected)
    ensures MergedPrevious(r, rules.norm).Valid() && BuildLists(r, rules).blocking.Valid()
    ensures Reports(BuildComments(r, rules), expected)
  {
    BuiltIsPrintable(r, rules);
    var m := MergedPrevious(r, rules.norm);
    MergeIsFaithful(AllPrevious(r), r.expected, rules.norm);
    forall i | 0 <= i < |m.keys|
      ensures Agrees(expected, m.Values()[i])
    {
      assert m.keys[i] in m.keys;
      assert EntryFaithful(m.entries[m.keys[i]], AllPrevious(r), r.expected, m.keys[i]);
    }
  }

  lemma CanonicalKeepsBlockingIds(c: Comments, norm: string -> string)
    ensures IdSet(Canonical(c, norm).blockingFindings) == IdSet(c.blockingFindings)
  {
    var printed := Canonical(c, norm).blockingFindings;
    forall i | 0 <= i < |printed|
      ensures printed[i].id == c.blockingFindings[i].id
    {
      assert printed[i] == Plain(c.blockingFindings[i].id, c.blockingFindings[i].source, norm(c.blockingFindings[i].text));
    }
    SameIdsPointwise(printed, c.blockingFindings);
  }

  /** A report with a blocking status leaves a merged finding with one. */
  lemma BlockingReportMerges(r: Reviews, norm: string -> string, f: PreviousFinding)
    requires f in AllPrevious(r) && Counts(f, r.expected) && BlockingStatus(f.status)
    ensures MergedPrevious(r, norm).Valid()
    ensures exists g :: g in MergedPrevious(r, norm).Values() && g.id == f.id && BlockingStatus(g.status)
  {
    var m := MergedPrevious(r, norm);
    MergeIsFaithful(AllPrevious(r), r.expected, norm);
    assert Reported(AllPrevious(r), r.expected, f.id);
    assert EntryFaithful(m.entries[f.id], AllPrevious(r), r.expected, f.id);
    assert Priority(m.entries[f.id].status) >= Priority(f.status);
    var i :| 0 <= i < |m.keys| && m.keys[i] == f.id;
    assert m.Values()[i] == m.entries[f.id] && m.Values()[i] in m.Values();
  }

  /** Every expected finding that any one reviewer calls blocking is in the built blocking list. */
  lemma BlockingReportsAreListed(r: Reviews, rules: Rules)
    ensures MergedPrevious(r, rules.norm).Valid() && BuildLists(r, rules).blocking.Valid()
    ensures forall f :: f in AllPrevious(r) && Counts(f, r.expected) && BlockingStatus(f.status) ==>
              f.id in IdSet(BuildComments(r, rules).blockingFindings)
  {
    BlockingPreviousAreListed(r, rules);
    var built := BuildComments(r, rules);
    forall f | f in AllPrevious(r) && Counts(f, r.expected) && BlockingStatus(f.status)
      ensures f.id in IdSet(built.blockingFindings)
    {
      BlockingReportMerges(r, rules.norm, f);
      var g :| g in built.previousFindings && g.id == f.id && BlockingStatus(g.status);
    }
  }

  /**
    The comments built from the reviewers parse back to exactly what was built, under the expectations
    they were built for and with any raw sections, and every expected finding that any single reviewer
    reported with a blocking status is in the parsed blocking list.
   */
  lemma BuiltReviewReadsBack(r: Reviews, rules: Rules, previousFindings: seq<Finding>, rawLines: seq<string>)
    requires GoodInputs(r, rules)
    requires r.expected == Some(ExpectedSources(previousFindings)) && AllReported(r, ExpectedSources(previousFindings))
    ensures MergedPrevious(r, rules.norm).Valid() && BuildLists(r, rules).blocking.Valid()
    ensures BuildComments(r, rules).iteration >= 0
    ensures var built := BuildComments(r, rules);
      var parsed := Parse(Some(Print(built, rules.norm, rawLines)), previousFindings, rules.norm);
      && parsed == Accepted(Canonical(built, rules.norm))
      && (forall f :: f in built.previousFindings && BlockingStatus(f.status) ==>
            f.id in IdSet(parsed.value.blockingFindings))
      && forall f :: f in AllPrevious(r) && f.id in ExpectedSources(previousFindings) && BlockingStatus(f.status) ==>
           f.id in IdSet(parsed.value.blockingFindings)
  {
    BuiltIsPrintable(r, rules);
    BuiltReports(r, rules, ExpectedSources(previousFindings));
    var built := BuildComments(r, rules);
    ParsePrintRoundTrip(built, rules.norm, previousFindings, rawLines);
    BlockingPreviousAreListed(r, rules);
    BlockingReportsAreListed(r, rules);
    CanonicalKeepsBlockingIds(built, rules.norm);
  }
}
