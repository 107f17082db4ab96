/**
  Parsing what the printer prints gives the same review back, whatever raw sections follow
  (packages/agent/src/reviewContract.ts:945-1167).
 */
module ReviewRoundTrip {
  import opened Collections
  import opened ReviewText
  import opened ReviewFindings
  import opened ReviewRows
  import opened ReviewComments

  // ---- What can be printed ----

  ghost predicate PrintablePrevious(f: PreviousFinding, norm: string -> string) {
    PlainId(f.id) && f.source in Sources && norm(f.note) != ""
  }

  ghost predicate PrintableBlocking(f: Finding, norm: string -> string) {
    PlainId(f.id) && f.source in Sources && norm(f.text) != ""
  }

  ghost predicate PrintableAdvisory(a: Advisory, norm: string -> string) {
    a.source in Sources && norm(a.text) != ""
  }

  ghost predicate PrintableCoverage(c: Coverage, norm: string -> string) {
    c.area in RequiredAreas && c.status in CoverageStatuses && norm(c.note) != ""
  }

  ghost predicate PrintableRows(c: Comments, norm: string -> string) {
    && (forall i :: 0 <= i < |c.previousFindings| ==> PrintablePrevious(c.previousFindings[i], norm))
    && (forall i :: 0 <= i < |c.blockingFindings| ==> PrintableBlocking(c.blockingFindings[i], norm))
    && (forall i :: 0 <= i < |c.advisories| ==> PrintableAdvisory(c.advisories[i], norm))
    && (forall i :: 0 <= i < |c.securityCoverage| ==> PrintableCoverage(c.securityCoverage[i], norm))
  }

  ghost predicate DistinctPrevious(previousFindings: seq<PreviousFinding>) {
    forall i, j :: 0 <= i < j < |previousFindings| ==> previousFindings[i].id != previousFindings[j].id
  }

  ghost predicate DistinctAreas(coverage: seq<Coverage>) {
    forall i, j :: 0 <= i < j < |coverage| ==> coverage[i].area != coverage[j].area
  }

  function AreasOf(coverage: seq<Coverage>): set<string> {
    set c | c in coverage :: c.area
  }

  function PreviousIds(previousFindings: seq<PreviousFinding>): set<string> {
    set f | f in previousFindings :: f.id
  }

  ghost predicate Printable(c: Comments, norm: string -> string) {
    && 1 <= c.iteration <= MaxSafeInteger
    && PrintableRows(c, norm)
    && DistinctPrevious(c.previousFindings)
    && DistinctAreas(c.securityCoverage) && Elements(RequiredAreas) <= AreasOf(c.securityCoverage)
  }

  /** Every expected finding is reported, under its source; nothing expected means anything may be. */
  ghost predicate Reports(c: Comments, expected: map<string, string>) {
    && expected.Keys <= PreviousIds(c.previousFindings)
    && forall i :: 0 <= i < |c.previousFindings| ==> Agrees(expected, c.previousFindings[i])
  }

  /** The review with its texts as they are persisted. */
  function CanonicalPrevious(f: PreviousFinding, norm: string -> string): PreviousFinding {
    f.(note := norm(f.note), closureEvidence := Some(norm(f.note)))
  }

  function Canonical(c: Comments, norm: string -> string): Comments {
    Comments(c.strategy, c.iteration,
             Map(c.previousFindings, f => CanonicalPrevious(f, norm)),
             Map(c.blockingFindings, (f: Finding) => Plain(f.id, f.source, norm(f.text))),
             Map(c.advisories, (a: Advisory) => Advisory(a.source, norm(a.text))),
             Map(c.securityCoverage, (x: Coverage) => x.(note := norm(x.note))))
  }

  // ---- Rows ----

  lemma {:induction false} ReadRowsAll<T>(st: Rows<T>, items: seq<string>, values: seq<T>,
                                          read: string -> Option<T>, malformed: IssueCode, section: string)
    requires |items| == |values|
    requires forall i :: 0 <= i < |items| ==> read(items[i]) == Some(values[i])
    ensures ReadRows(st, items, read, malformed, section) == Rows(st.value + values, st.issues)
    decreases |items|
  {
    if items == [] {
      assert st.value + values == st.value;
    } else {
      ReadRowsAll(ReadRow(st, items[0], read, malformed, section), items[1..], values[1..], read, malformed, section);
      assert st.value + [values[0]] + values[1..] == st.value + values;
    }
  }

  lemma PreviousIdsCons(values: seq<PreviousFinding>)
    requires values != []
    ensures PreviousIds(values) == {values[0].id} + PreviousIds(values[1..])
  {
  }

  lemma AcceptedPreviousRow(st: KeyedRows<PreviousFinding>, item: string, f: PreviousFinding,
                            expected: map<string, string>, read: string -> Option<PreviousFinding>)
    requires read(item) == Some(f) && f.id !in st.seen && Agrees(expected, f)
    ensures PreviousRow(st, item, expected, read) == KeyedRows(st.value + [f], st.seen + {f.id}, st.issues)
  {
  }

  lemma DistinctRest(values: seq<PreviousFinding>)
    requires DistinctPrevious(values) && values != []
    ensures DistinctPrevious(values[1..])
    ensures forall i :: 0 <= i < |values| - 1 ==> values[1..][i].id != values[0].id
  {
  }

  lemma {:induction false} PreviousRowsAll(st: KeyedRows<PreviousFinding>, items: seq<string>,
                                           values: seq<PreviousFinding>, expected: map<string, string>,
                                           read: string -> Option<PreviousFinding>)
    requires |items| == |values|
    requires forall i :: 0 <= i < |items| ==> read(items[i]) == Some(values[i])
    requires DistinctPrevious(values)
    requires forall i :: 0 <= i < |values| ==> values[i].id !in st.seen && Agrees(expected, values[i])
    ensures PreviousRows(st, items, expected, read) ==
            KeyedRows(st.value + values, st.seen + PreviousIds(values), st.issues)
    decreases |items|
  {
    if items == [] {
      assert st.value + values == st.value;
      assert st.seen + PreviousIds(values) == st.seen;
    } else {
      hide PreviousRow, PreviousIds, Agrees, DistinctPrevious;
      var f, rest := values[0], values[1..];
      var next := KeyedRows(st.value + [f], st.seen + {f.id}, st.issues);
      DistinctRest(values);
      AcceptedPreviousRow(st, items[0], f, expected, read);
      PreviousRowsAll(next, items[1..], rest, expected, read);
      assert next.value + rest == st.value + values;
      PreviousIdsCons(values);
      assert next.seen + PreviousIds(rest) == st.seen + ({f.id} + PreviousIds(rest));
    }
  }

  lemma AreasCons(values: seq<Coverage>)
    requires values != []
    ensures AreasOf(values) == {values[0].area} + AreasOf(values[1..])
  {
  }

  lemma DistinctAreasRest(values: seq<Coverage>)
    requires DistinctAreas(values) && values != []
    ensures DistinctAreas(values[1..])
    ensures forall i :: 0 <= i < |values| - 1 ==> values[1..][i].area != values[0].area
  {
  }

  lemma AcceptedCoverageRow(st: KeyedRows<Coverage>, item: string, x: Coverage, read: string -> Option<Coverage>)
    requires read(item) == Some(x) && x.area !in st.seen
    ensures CoverageRow(st, item, read) == KeyedRows(st.value + [x], st.seen + {x.area}, st.issues)
  {
  }

  lemma {:induction false} CoverageRowsAll(st: KeyedRows<Coverage>, items: seq<string>, values: seq<Coverage>,
                                           read: string -> Option<Coverage>)
    requires |items| == |values|
    requires forall i :: 0 <= i < |items| ==> read(items[i]) == Some(values[i])
    requires DistinctAreas(values)
    requires forall i :: 0 <= i < |values| ==> values[i].area !in st.seen
    ensures CoverageRows(st, items, read) == KeyedRows(st.value + values, st.seen + AreasOf(values), st.issues)
    decreases |items|
  {
    if items == [] {
      assert st.value + values == st.value;
      assert st.seen + AreasOf(values) == st.seen;
    } else {
      hide AreasOf, CoverageRow, DistinctAreas;
      var x, rest := values[0], values[1..];
      var next := KeyedRows(st.value + [x], st.seen + {x.area}, st.issues);
      DistinctAreasRest(values);
      AcceptedCoverageRow(st, items[0], x, read);
      CoverageRowsAll(next, items[1..], rest, read);
      assert next.value + rest == st.value + values;
      AreasCons(values);
      assert next.seen + AreasOf(rest) == st.seen + ({x.area} + AreasOf(rest));
    }
  }

  lemma PreviousReadsItems(c: Comments, norm: string -> string)
    requires Normalizes(norm) && PrintableRows(c, norm)
    ensures var items, values := PreviousItems(c, norm), Canonical(c, norm).previousFindings;
      && |items| == |values| && RowItems(items)
      && forall i :: 0 <= i < |items| ==> PreviousReader(norm)(items[i]) == Some(values[i])
  {
    var items, values := PreviousItems(c, norm), Canonical(c, norm).previousFindings;
    forall i | 0 <= i < |items|
      ensures PreviousReader(norm)(items[i]) == Some(values[i]) && RowItem(items[i])
    {
      assert PrintablePrevious(c.previousFindings[i], norm);
      ReadPreviousItem(c.previousFindings[i], norm);
    }
  }

  /** Reports with the same ids and sources fit the same expectations. */
  lemma SameReports(a: seq<PreviousFinding>, b: seq<PreviousFinding>, expected: map<string, string>)
    requires |a| == |b| && forall i :: 0 <= i < |a| ==> a[i].id == b[i].id && a[i].source == b[i].source
    requires forall i :: 0 <= i < |a| ==> Agrees(expected, a[i])
    requires DistinctPrevious(a)
    ensures PreviousIds(a) <= PreviousIds(b)
    ensures DistinctPrevious(b)
    ensures forall i :: 0 <= i < |b| ==> Agrees(expected, b[i])
  {
    forall id | id in PreviousIds(a)
      ensures id in PreviousIds(b)
    {
      var i :| 0 <= i < |a| && a[i].id == id;
      assert b[i] in b;
    }
    forall i | 0 <= i < |b|
      ensures Agrees(expected, b[i])
    {
      assert Agrees(expected, a[i]);
    }
  }

  lemma {:induction false} ExpectedIds(previousFindings: seq<Finding>)
    ensures ExpectedSources(previousFindings).Keys == IdSet(previousFindings)
  {
    if previousFindings != [] {
      ExpectedIds(Init(previousFindings));
      assert previousFindings == Init(previousFindings) + [Last(previousFindings)];
    }
  }

  lemma {:induction false} NoneMissing(previousFindings: seq<Finding>, seen: set<string>)
    requires IdSet(previousFindings) <= seen
    ensures MissingPrevious(previousFindings, seen) == []
  {
    if previousFindings != [] {
      assert previousFindings == Init(previousFindings) + [Last(previousFindings)];
      assert Last(previousFindings) in previousFindings;
      assert IdSet(Init(previousFindings)) <= IdSet(previousFindings);
      NoneMissing(Init(previousFindings), seen);
    }
  }

  lemma CheckedPreviousRows(items: seq<string>, values: seq<PreviousFinding>, expected: seq<Finding>,
                            norm: string -> string)
    requires |items| == |values|
    requires forall i :: 0 <= i < |items| ==> PreviousReader(norm)(items[i]) == Some(values[i])
    requires DistinctPrevious(values) && ExpectedSources(expected).Keys <= PreviousIds(values)
    requires forall i :: 0 <= i < |values| ==> Agrees(ExpectedSources(expected), values[i])
    ensures ReadPreviousItems(items, expected, norm) == Rows(values, [])
  {
    PreviousRowsAll(KeyedRows([], {}, []), items, values, ExpectedSources(expected), PreviousReader(norm));
    assert [] + values == values;
    ExpectedIds(expected);
    NoneMissing(expected, {} + PreviousIds(values));
  }

  lemma PreviousReadBack(c: Comments, norm: string -> string, expected: seq<Finding>)
    requires Normalizes(norm) && Printable(c, norm) && Reports(c, ExpectedSources(expected))
    ensures ReadPreviousItems(PreviousItems(c, norm), expected, norm) == Rows(Canonical(c, norm).previousFindings, [])
    ensures RowItems(PreviousItems(c, norm))
  {
    hide Normalizes, PrintableRows, ReadPreviousItems;
    hide RowItems;
    PreviousReadsItems(c, norm);
    var values := Canonical(c, norm).previousFindings;
    SameReports(c.previousFindings, values, ExpectedSources(expected));
    CheckedPreviousRows(PreviousItems(c, norm), values, expected, norm);
  }

  lemma {:induction false} NoAreaMissing(areas: seq<string>, seen: set<string>)
    requires Elements(areas) <= seen
    ensures MissingAreas(areas, seen) == []
  {
    if areas != [] {
      assert areas == Init(areas) + [Last(areas)];
      assert Last(areas) in Elements(areas) && Elements(Init(areas)) <= Elements(areas);
      NoAreaMissing(Init(areas), seen);
    }
  }

  lemma CheckedCoverageRows(items: seq<string>, values: seq<Coverage>, norm: string -> string)
    requires |items| == |values|
    requires forall i :: 0 <= i < |items| ==> CoverageReader(norm)(items[i]) == Some(values[i])
    requires DistinctAreas(values) && Elements(RequiredAreas) <= AreasOf(values)
    ensures ReadCoverageItems(items, norm) == CoverageResult(Some(values), [])
  {
    CoverageRowsAll(KeyedRows([], {}, []), items, values, CoverageReader(norm));
    assert [] + values == values;
    NoAreaMissing(RequiredAreas, {} + AreasOf(values));
  }

  lemma CoverageReadsItems(c: Comments, norm: string -> string)
    requires Normalizes(norm) && PrintableRows(c, norm)
    ensures var items, values := CoverageItems(c, norm), Canonical(c, norm).securityCoverage;
      && |items| == |values| && RowItems(items)
      && forall i :: 0 <= i < |items| ==> CoverageReader(norm)(items[i]) == Some(values[i])
  {
    var items, values := CoverageItems(c, norm), Canonical(c, norm).securityCoverage;
    forall i | 0 <= i < |items|
      ensures CoverageReader(norm)(items[i]) == Some(values[i]) && RowItem(items[i])
    {
      assert PrintableCoverage(c.securityCoverage[i], norm);
      ReadCoverageItem(c.securityCoverage[i], norm);
    }
  }

  lemma CoverageReadBack(c: Comments, norm: string -> string)
    requires Normalizes(norm) && Printable(c, norm)
    ensures ReadCoverageItems(CoverageItems(c, norm), norm) ==
            CoverageResult(Some(Canonical(c, norm).securityCoverage), [])
    ensures RowItems(CoverageItems(c, norm))
  {
    hide RowItems, Normalizes, PrintableRows, ReadCoverageItems;
    CoverageReadsItems(c, norm);
    var values := Canonical(c, norm).securityCoverage;
    SameAreas(c.securityCoverage, values);
    CheckedCoverageRows(CoverageItems(c, norm), values, norm);
  }

  lemma SameAreas(a: seq<Coverage>, b: seq<Coverage>)
    requires |a| == |b| && forall i :: 0 <= i < |a| ==> a[i].area == b[i].area
    ensures AreasOf(a) <= AreasOf(b)
    ensures DistinctAreas(a) ==> DistinctAreas(b)
  {
    forall area | area in AreasOf(a)
      ensures area in AreasOf(b)
    {
      var i :| 0 <= i < |a| && a[i].area == area;
      assert b[i] in b;
    }
  }

  lemma BlockingReadBack(c: Comments, norm: string -> string)
    requires Normalizes(norm) && PrintableRows(c, norm)
    ensures ReadRows(Rows([], []), BlockingItems(c, norm), BlockingReader(norm), MalformedBlockingFinding,
                     BlockingSection) == Rows(Canonical(c, norm).blockingFindings, [])
    ensures RowItems(BlockingItems(c, norm))
  {
    var items, values := BlockingItems(c, norm), Canonical(c, norm).blockingFindings;
    forall i | 0 <= i < |items|
      ensures BlockingReader(norm)(items[i]) == Some(values[i]) && RowItem(items[i])
    {
      assert PrintableBlocking(c.blockingFindings[i], norm);
      ReadBlockingItem(c.blockingFindings[i], norm);
    }
    ReadRowsAll(Rows([], []), items, values, BlockingReader(norm), MalformedBlockingFinding, BlockingSection);
    assert [] + values == values;
  }

  lemma AdvisoriesReadBack(c: Comments, norm: string -> string)
    requires Normalizes(norm) && PrintableRows(c, norm)
    ensures ReadRows(Rows([], []), AdvisoryItems(c, norm), AdvisoryReader(norm), MalformedAdvisory, AdvisorySection)
            == Rows(Canonical(c, norm).advisories, [])
    ensures RowItems(AdvisoryItems(c, norm))
  {
    var items, values := AdvisoryItems(c, norm), Canonical(c, norm).advisories;
    forall i | 0 <= i < |items|
      ensures AdvisoryReader(norm)(items[i]) == Some(values[i]) && RowItem(items[i])
    {
      assert PrintableAdvisory(c.advisories[i], norm);
      ReadAdvisoryItem(c.advisories[i], norm);
    }
    ReadRowsAll(Rows([], []), items, values, AdvisoryReader(norm), MalformedAdvisory, AdvisorySection);
    assert [] + values == values;
  }

  // ---- Metadata ----

  lemma LabelledItem(marker: string, value: string)
    requires marker != "" && Trimmed(value)
    ensures StartsWith(marker + value, marker) && Trim((marker + value)[|marker|..]) == value
  {
    assert (marker + value)[..|marker|] == marker;
    assert (marker + value)[|marker|..] == value;
    TrimTrimmed(value);
  }

  lemma StrategyNames(strategy: Strategy)
    ensures StrategyNamed(StrategyName(strategy)) == Some(strategy)
    ensures Name(StrategyName(strategy)) && '\n' !in StrategyName(strategy)
  {
    assert |"full_re_review"| == 14 && |"closure_first"| == 13;
    assert Lower(StrategyName(strategy));
    LowerIsName(StrategyName(strategy));
  }

  lemma NumeralIsName(s: string)
    requires PositiveNumeral(s)
    ensures Name(s) && '\n' !in s
  {
  }

  lemma NameIsVisible(s: string)
    requires Name(s)
    ensures Visible(s)
  {
  }

  lemma LabelsDiffer(value: string)
    ensures !StartsWith(StrategyLabel + value, IterationLabel)
  {
    var s := StrategyLabel + value;
    assert s[0] == 'S' && IterationLabel[0] == 'R';
    assert |s| >= |IterationLabel| ==> s[..|IterationLabel|][0] == 'S';
  }

  lemma LabelledRow(marker: string, value: string)
    requires marker == StrategyLabel || marker == IterationLabel
    requires Visible(value) && '\n' !in value
    ensures RowItem(marker + value)
  {
    var s := marker + value;
    assert s[|s| - 1] == value[|value| - 1];
    assert s[0] == marker[0];
    assert '\n' !in marker;
  }

  lemma FindFirst(first: string, second: string, marker: string)
    requires StartsWith(first, marker)
    ensures FindLabelled([first, second], marker) == Some(Trim(first[|marker|..]))
  {
  }

  lemma FindSecond(first: string, second: string, marker: string)
    requires !StartsWith(first, marker) && StartsWith(second, marker)
    ensures FindLabelled([first, second], marker) == Some(Trim(second[|marker|..]))
  {
    assert [first, second][1..] == [second];
    assert FindLabelled([second], marker) == Some(Trim(second[|marker|..]));
  }

  lemma MetadataReadBack(c: Comments)
    requires 1 <= c.iteration <= MaxSafeInteger
    ensures ReadMetadata(MetadataItems(c)) == Metadata(Some(c.strategy), Some(c.iteration), [])
    ensures RowItems(MetadataItems(c))
  {
    var items := MetadataItems(c);
    var name, digits := StrategyName(c.strategy), Digits(c.iteration);
    StrategyNames(c.strategy);
    DigitsRead(c.iteration);
    NumeralIsName(digits);
    NameIsVisible(name);
    NameIsVisible(digits);
    LabelledItem(StrategyLabel, name);
    LabelledItem(IterationLabel, digits);
    LabelsDiffer(name);
    LabelledRow(StrategyLabel, name);
    LabelledRow(IterationLabel, digits);
    FindFirst(items[0], items[1], StrategyLabel);
    FindSecond(items[0], items[1], IterationLabel);
  }

  // ---- From lists to the result ----

  ghost predicate RowItems(items: seq<string>) {
    forall i :: 0 <= i < |items| ==> RowItem(items[i])
  }

  lemma ListsReadBack(c: Comments, norm: string -> string, expected: seq<Finding>)
    requires Normalizes(norm) && Printable(c, norm) && Reports(c, ExpectedSources(expected))
    ensures ReadLists(ListsOf(c, norm), [], expected, norm) == Accepted(Canonical(c, norm))
  {
    MetadataReadBack(c);
    PreviousReadBack(c, norm, expected);
    BlockingReadBack(c, norm);
    AdvisoriesReadBack(c, norm);
    CoverageReadBack(c, norm);
  }
}
