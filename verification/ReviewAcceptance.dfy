/**
  What the review parser accepts and what it objects to, row by row (packages/agent/src/reviewContract.ts:694-752,
  1010-1254).
 */
module ReviewAcceptance {
  import opened Collections
  import opened ReviewFindings
  import opened ReviewText
  import opened ReviewSections
  import opened ReviewRows
  import opened ReviewComments

  // ---- Rows that only have to be readable ----

  /** What the readable rows say. */
  function Readings<T>(items: seq<string>, read: string -> Option<T>): seq<T> {
    if items == [] then []
    else Reading(items[0], read) + Readings(items[1..], read)
  }

  /** One issue for each unreadable row. */
  function Objections<T>(items: seq<string>, read: string -> Option<T>, malformed: IssueCode, section: string)
    : seq<Issue>
  {
    if items == [] then []
    else RowObjection(items[0], read, malformed, section) + Objections(items[1..], read, malformed, section)
  }

  function Reading<T>(item: string, read: string -> Option<T>): seq<T> {
    if read(item).Some? then [read(item).value] else []
  }

  function RowObjection<T>(item: string, read: string -> Option<T>, malformed: IssueCode, section: string): seq<Issue> {
    if read(item).None? then [Issue(malformed, section, Some(item), None)] else []
  }

  lemma OneReading<T>(st: Rows<T>, item: string, read: string -> Option<T>, malformed: IssueCode, section: string)
    ensures ReadRow(st, item, read, malformed, section) ==
            Rows(st.value + Reading(item, read), st.issues + RowObjection(item, read, malformed, section))
  {
    assert st.value + [] == st.value && st.issues + [] == st.issues;
  }

  lemma Regroup<T>(a: seq<T>, b: seq<T>, c: seq<T>)
    ensures a + b + c == a + (b + c)
  {
  }

  lemma {:induction false} RowsAre<T>(st: Rows<T>, items: seq<string>, read: string -> Option<T>, malformed: IssueCode,
                                      section: string)
    ensures ReadRows(st, items, read, malformed, section) ==
            Rows(st.value + Readings(items, read), st.issues + Objections(items, read, malformed, section))
    decreases |items|
  {
    if items == [] {
      assert st.value + [] == st.value && st.issues + [] == st.issues;
    } else {
      hide ReadRow, Reading, RowObjection;
      OneReading(st, items[0], read, malformed, section);
      RowsAre(ReadRow(st, items[0], read, malformed, section), items[1..], read, malformed, section);
      Regroup(st.value, Reading(items[0], read), Readings(items[1..], read));
      Regroup(st.issues, RowObjection(items[0], read, malformed, section),
              Objections(items[1..], read, malformed, section));
    }
  }

  lemma {:induction false} NoObjections<T>(items: seq<string>, read: string -> Option<T>, malformed: IssueCode,
                                           section: string)
    ensures Objections(items, read, malformed, section) == [] <==> forall i :: 0 <= i < |items| ==> read(items[i]).Some?
    ensures Objections(items, read, malformed, section) == [] ==>
              |Readings(items, read)| == |items| &&
              forall i :: 0 <= i < |items| ==> Some(Readings(items, read)[i]) == read(items[i])
  {
    if items != [] {
      NoObjections(items[1..], read, malformed, section);
    }
  }

  // ---- Reports on previous findings ----

  /** The i-th row can be read and no row before it is about the same finding. */
  ghost predicate FirstAbout(items: seq<string>, i: nat, read: string -> Option<PreviousFinding>)
    requires i < |items|
  {
    && read(items[i]).Some?
    && forall j :: 0 <= j < i && read(items[j]).Some? ==> read(items[j]).value.id != read(items[i]).value.id
  }

  /** The finding that the report is about is expected, under the report's source; or nothing is expected at all. */
  ghost predicate Expects(previousFindings: seq<Finding>, f: PreviousFinding) {
    previousFindings == [] ||
    (LastById(previousFindings, f.id).Some? && LastById(previousFindings, f.id).value.source == f.source)
  }

  ghost predicate Accepts(items: seq<string>, i: nat, previousFindings: seq<Finding>,
                          read: string -> Option<PreviousFinding>)
    requires i < |items|
  {
    FirstAbout(items, i, read) && Expects(previousFindings, read(items[i]).value)
  }

  /** Why the i-th row is not accepted. */
  ghost function Objection(items: seq<string>, i: nat, previousFindings: seq<Finding>,
                           read: string -> Option<PreviousFinding>): Issue
    requires i < |items|
  {
    match read(items[i])
    case None => Issue(MalformedPreviousFinding, PreviousSection, Some(items[i]), None)
    case Some(f) =>
      if !FirstAbout(items, i, read) then
        Issue(DuplicatePreviousFinding, PreviousSection, Some(items[i]), Some(f.id))
      else if f.id in IdSet(previousFindings) then
        Issue(MalformedPreviousFinding, PreviousSection, Some(items[i]), Some(f.id))
      else Issue(UnknownPreviousFinding, PreviousSection, Some(items[i]), Some(f.id))
  }

  ghost function AcceptedRows(items: seq<string>, n: nat, previousFindings: seq<Finding>,
                              read: string -> Option<PreviousFinding>): seq<PreviousFinding>
    requires n <= |items|
  {
    if n == 0 then []
    else AcceptedRows(items, n - 1, previousFindings, read) +
         if Accepts(items, n - 1, previousFindings, read) then [read(items[n - 1]).value] else []
  }

  ghost function RejectedRows(items: seq<string>, n: nat, previousFindings: seq<Finding>,
                              read: string -> Option<PreviousFinding>): seq<Issue>
    requires n <= |items|
  {
    if n == 0 then []
    else RejectedRows(items, n - 1, previousFindings, read) +
         if Accepts(items, n - 1, previousFindings, read) then [] else [Objection(items, n - 1, previousFindings, read)]
  }

  /** Some readable row is about the finding. */
  ghost predicate IsAbout(items: seq<string>, n: nat, read: string -> Option<PreviousFinding>, id: string)
    requires n <= |items|
  {
    exists i :: 0 <= i < n && read(items[i]).Some? && read(items[i]).value.id == id
  }

  lemma {:induction false} SourceExpected(previousFindings: seq<Finding>, id: string)
    ensures var last, sources := LastById(previousFindings, id), ExpectedSources(previousFindings);
      (id in sources <==> last.Some?) && (last.Some? ==> sources[id] == last.value.source)
  {
    if previousFindings != [] {
      SourceExpected(previousFindings[..|previousFindings| - 1], id);
    }
  }

  lemma SourcesExpected(previousFindings: seq<Finding>)
    ensures ExpectedSources(previousFindings).Keys == IdSet(previousFindings)
    ensures forall id :: id in IdSet(previousFindings) ==>
              LastById(previousFindings, id).Some? &&
              ExpectedSources(previousFindings)[id] == LastById(previousFindings, id).value.source
    ensures ExpectedSources(previousFindings) == map[] <==> previousFindings == []
  {
    forall id
      ensures var last, sources := LastById(previousFindings, id), ExpectedSources(previousFindings);
        (id in sources <==> last.Some?) && (last.Some? ==> sources[id] == last.value.source)
    {
      SourceExpected(previousFindings, id);
    }
    if previousFindings != [] {
      SourceExpected(previousFindings, previousFindings[0].id);
      assert previousFindings[0].id in IdSet(previousFindings);
      assert previousFindings[0].id in ExpectedSources(previousFindings);
    }
    hide ExpectedSources, LastById;
  }

  lemma AgreesIff(previousFindings: seq<Finding>, f: PreviousFinding)
    ensures Agrees(ExpectedSources(previousFindings), f) <==> Expects(previousFindings, f)
  {
    SourcesExpected(previousFindings);
  }

  /** The state after n rows is what the rows say one by one. */
  lemma {:induction false} PreviousRowsAre(items: seq<string>, n: nat, previousFindings: seq<Finding>,
                                           read: string -> Option<PreviousFinding>)
    requires n <= |items|
    ensures var st := PreviousRows(KeyedRows([], {}, []), items[..n], ExpectedSources(previousFindings), read);
      && st.value == AcceptedRows(items, n, previousFindings, read)
      && st.issues == RejectedRows(items, n, previousFindings, read)
      && forall id :: id in st.seen <==> IsAbout(items, n, read, id)
  {
    var expected := ExpectedSources(previousFindings);
    if n == 0 {
      assert items[..0] == [];
    } else {
      PreviousRowsAre(items, n - 1, previousFindings, read);
      OnePreviousRow(KeyedRows([], {}, []), items, n - 1, expected, read);
      var before := PreviousRows(KeyedRows([], {}, []), items[..n - 1], expected, read);
      PreviousRowIs(before, items, n - 1, previousFindings, read);
    }
  }

  lemma PreviousRowIs(before: KeyedRows<PreviousFinding>, items: seq<string>, i: nat, previousFindings: seq<Finding>,
                      read: string -> Option<PreviousFinding>)
    requires i < |items| && forall id :: id in before.seen <==> IsAbout(items, i, read, id)
    ensures var after := PreviousRow(before, items[i], ExpectedSources(previousFindings), read);
      && after.value ==
         before.value + (if Accepts(items, i, previousFindings, read) then [read(items[i]).value] else [])
      && after.issues == before.issues +
           (if Accepts(items, i, previousFindings, read) then [] else [Objection(items, i, previousFindings, read)])
      && forall id :: id in after.seen <==> IsAbout(items, i + 1, read, id)
  {
    assert before.value + [] == before.value && before.issues + [] == before.issues;
    if read(items[i]).Some? {
      var f := read(items[i]).value;
      assert FirstAbout(items, i, read) <==> f.id !in before.seen;
      AgreesIff(previousFindings, f);
      SourcesExpected(previousFindings);
    }
    forall id
      ensures IsAbout(items, i + 1, read, id) <==>
              IsAbout(items, i, read, id) || (read(items[i]).Some? && read(items[i]).value.id == id)
    {
    }
  }

  lemma {:induction false} NoneRejected(items: seq<string>, n: nat, previousFindings: seq<Finding>,
                                        read: string -> Option<PreviousFinding>)
    requires n <= |items|
    ensures RejectedRows(items, n, previousFindings, read) == [] <==>
            forall i :: 0 <= i < n ==> Accepts(items, i, previousFindings, read)
    ensures RejectedRows(items, n, previousFindings, read) == [] ==>
              && |AcceptedRows(items, n, previousFindings, read)| == n
              && forall i :: 0 <= i < n ==> Some(AcceptedRows(items, n, previousFindings, read)[i]) == read(items[i])
  {
    if n > 0 {
      NoneRejected(items, n - 1, previousFindings, read);
    }
  }

  lemma {:induction false} NoneMissing(previousFindings: seq<Finding>, seen: set<string>)
    ensures MissingPrevious(previousFindings, seen) == [] <==> forall f :: f in previousFindings ==> f.id in seen
  {
    if previousFindings != [] {
      NoneMissing(Init(previousFindings), seen);
      assert previousFindings == Init(previousFindings) + [Last(previousFindings)];
    }
  }

  /**
    The reports are accepted as they are exactly when every row can be read, none repeats a finding, each is about an
    expected finding under its source, and none of the expected ones is missing.
   */
  lemma PreviousAcceptedIff(items: seq<string>, previousFindings: seq<Finding>, norm: string -> string)
    ensures var r := ReadPreviousItems(items, previousFindings, norm); var read := PreviousReader(norm);
      && (r.issues == [] <==>
            && (forall i :: 0 <= i < |items| ==> Accepts(items, i, previousFindings, read))
            && forall f :: f in previousFindings ==> IsAbout(items, |items|, read, f.id))
      && (r.issues == [] ==>
            |r.value| == |items| && forall i :: 0 <= i < |items| ==> Some(r.value[i]) == read(items[i]))
  {
    var read := PreviousReader(norm);
    assert items[..|items|] == items;
    PreviousRowsAre(items, |items|, previousFindings, read);
    NoneRejected(items, |items|, previousFindings, read);
    NoneMissing(previousFindings, PreviousRows(KeyedRows([], {}, []), items, ExpectedSources(previousFindings), read).seen);
    hide Accepts, IsAbout, RejectedRows, AcceptedRows, PreviousRows, ExpectedSources, MissingPrevious;
  }

  // ---- Security coverage ----

  ghost predicate FirstOfArea(items: seq<string>, i: nat, read: string -> Option<Coverage>)
    requires i < |items|
  {
    && read(items[i]).Some?
    && forall j :: 0 <= j < i && read(items[j]).Some? ==> read(items[j]).value.area != read(items[i]).value.area
  }

  ghost predicate Covers(items: seq<string>, n: nat, read: string -> Option<Coverage>, area: string)
    requires n <= |items|
  {
    exists i :: 0 <= i < n && read(items[i]).Some? && read(items[i]).value.area == area
  }

  /** Why the i-th row is not accepted. */
  function CoverageObjection(item: string, read: string -> Option<Coverage>): Issue {
    match read(item)
    case None => Issue(MalformedSecurityCoverage, CoverageSection, Some(item), None)
    case Some(c) => Issue(DuplicateSecurityCoverageArea, CoverageSection, Some(item), Some(c.area))
  }

  ghost function AcceptedCoverage(items: seq<string>, n: nat, read: string -> Option<Coverage>): seq<Coverage>
    requires n <= |items|
  {
    if n == 0 then []
    else AcceptedCoverage(items, n - 1, read) + if FirstOfArea(items, n - 1, read) then [read(items[n - 1]).value] else []
  }

  ghost function RejectedCoverage(items: seq<string>, n: nat, read: string -> Option<Coverage>): seq<Issue>
    requires n <= |items|
  {
    if n == 0 then []
    else RejectedCoverage(items, n - 1, read) +
         if FirstOfArea(items, n - 1, read) then [] else [CoverageObjection(items[n - 1], read)]
  }

  lemma {:induction false} CoverageRowsAre(items: seq<string>, n: nat, read: string -> Option<Coverage>)
    requires n <= |items|
    ensures var st := CoverageRows(KeyedRows([], {}, []), items[..n], read);
      && st.value == AcceptedCoverage(items, n, read) && st.issues == RejectedCoverage(items, n, read)
      && forall area :: area in st.seen <==> Covers(items, n, read, area)
  {
    if n == 0 {
      assert items[..0] == [];
    } else {
      CoverageRowsAre(items, n - 1, read);
      OneCoverageRow(KeyedRows([], {}, []), items, n - 1, read);
      CoverageRowIs(CoverageRows(KeyedRows([], {}, []), items[..n - 1], read), items, n - 1, read);
    }
  }

  lemma CoverageRowIs(before: KeyedRows<Coverage>, items: seq<string>, i: nat, read: string -> Option<Coverage>)
    requires i < |items| && forall area :: area in before.seen <==> Covers(items, i, read, area)
    ensures var after := CoverageRow(before, items[i], read);
      && after.value == before.value + (if FirstOfArea(items, i, read) then [read(items[i]).value] else [])
      && after.issues ==
         before.issues + (if FirstOfArea(items, i, read) then [] else [CoverageObjection(items[i], read)])
      && forall area :: area in after.seen <==> Covers(items, i + 1, read, area)
  {
    assert before.value + [] == before.value && before.issues + [] == before.issues;
    if read(items[i]).Some? {
      assert FirstOfArea(items, i, read) <==> read(items[i]).value.area !in before.seen;
    }
    forall area
      ensures Covers(items, i + 1, read, area) <==>
              Covers(items, i, read, area) || (read(items[i]).Some? && read(items[i]).value.area == area)
    {
    }
  }

  lemma {:induction false} NoCoverageRejected(items: seq<string>, n: nat, read: string -> Option<Coverage>)
    requires n <= |items|
    ensures RejectedCoverage(items, n, read) == [] <==> forall i :: 0 <= i < n ==> FirstOfArea(items, i, read)
    ensures RejectedCoverage(items, n, read) == [] ==>
              && |AcceptedCoverage(items, n, read)| == n
              && forall i :: 0 <= i < n ==> Some(AcceptedCoverage(items, n, read)[i]) == read(items[i])
  {
    if n > 0 {
      NoCoverageRejected(items, n - 1, read);
    }
  }

  lemma {:induction false} NoAreaMissing(areas: seq<string>, seen: set<string>)
    ensures MissingAreas(areas, seen) == [] <==> forall area :: area in areas ==> area in seen
  {
    if areas != [] {
      NoAreaMissing(Init(areas), seen);
      assert areas == Init(areas) + [Last(areas)];
    }
  }

  /** Coverage is accepted exactly when every row can be read, no area repeats and no required one is missing. */
  lemma CoverageAcceptedIff(items: seq<string>, norm: string -> string)
    ensures var r := ReadCoverageItems(items, norm); var read := CoverageReader(norm);
      && (r.value.Some? <==> r.issues == [])
      && (r.issues == [] <==>
            && (forall i :: 0 <= i < |items| ==> FirstOfArea(items, i, read))
            && forall area :: area in RequiredAreas ==> Covers(items, |items|, read, area))
      && (r.value.Some? ==>
            |r.value.value| == |items| && forall i :: 0 <= i < |items| ==> Some(r.value.value[i]) == read(items[i]))
  {
    var read := CoverageReader(norm);
    assert items[..|items|] == items;
    CoverageRowsAre(items, |items|, read);
    NoCoverageRejected(items, |items|, read);
    NoAreaMissing(RequiredAreas, CoverageRows(KeyedRows([], {}, []), items, read).seen);
    hide FirstOfArea, Covers, RejectedCoverage, AcceptedCoverage, CoverageRows, MissingAreas;
  }

  // ---- Metadata ----

  /** The i-th item is the first with the marker, and says this behind it. */
  ghost predicate SaysBehind(items: seq<string>, i: nat, marker: string, text: string) {
    && i < |items| && StartsWith(items[i], marker) && text == Trim(items[i][|marker|..])
    && forall j :: 0 <= j < i ==> !StartsWith(items[j], marker)
  }

  lemma {:induction false} LabelledIff(items: seq<string>, marker: string, text: string)
    ensures FindLabelled(items, marker) == Some(text) <==> exists i: nat :: SaysBehind(items, i, marker, text)
  {
    if items != [] {
      LabelledIff(items[1..], marker, text);
      if StartsWith(items[0], marker) {
        if text == Trim(items[0][|marker|..]) {
          assert SaysBehind(items, 0, marker, text);
        }
      } else {
        if i: nat :| SaysBehind(items[1..], i, marker, text) {
          assert SaysBehind(items, i + 1, marker, text);
        }
        if i: nat :| SaysBehind(items, i, marker, text) {
          var k := i - 1;
          assert items[1..][k] == items[i];
          assert forall j :: 0 <= j < k ==> items[1..][j] == items[j + 1];
          assert SaysBehind(items[1..], k, marker, text);
        }
      }
    }
  }

  lemma {:induction false} NumeralIsDigits(s: string)
    requires PositiveNumeral(s)
    ensures ValueOf(s) >= 1 && Digits(ValueOf(s)) == s
  {
    var init, last := s[..|s| - 1], s[|s| - 1];
    assert s == init + [last] && IsDigit(last);
    if init != "" {
      assert init[0] == s[0] && forall i :: 0 <= i < |init| ==> init[i] == s[i];
      NumeralIsDigits(init);
    } else {
      assert s == [last] && ValueOf(init) == 0;
    }
  }

  /** An iteration is read from its own numeral and from nothing else. */
  lemma IterationReadIff(text: string, iteration: int)
    ensures ReadIteration(text) == Some(iteration) <==>
            1 <= iteration <= MaxSafeInteger && text == Digits(iteration)
  {
    if ReadIteration(text).Some? {
      NumeralIsDigits(text);
    }
    if 1 <= iteration <= MaxSafeInteger && text == Digits(iteration) {
      DigitsRead(iteration);
    }
  }

  lemma StrategyReadIff(text: string, strategy: Strategy)
    ensures StrategyNamed(text) == Some(strategy) <==> text == StrategyName(strategy)
  {
    assert |"full_re_review"| == 14 && |"closure_first"| == 13;
  }

  /** The items name a strategy and an iteration. */
  ghost predicate MetadataSays(items: seq<string>, strategy: Strategy, iteration: int) {
    && (exists i: nat :: SaysBehind(items, i, StrategyLabel, StrategyName(strategy)))
    && 1 <= iteration <= MaxSafeInteger
    && (exists i: nat :: SaysBehind(items, i, IterationLabel, Digits(iteration)))
  }

  lemma MetadataIff(items: seq<string>, strategy: Strategy, iteration: int)
    ensures ReadMetadata(items) == Metadata(Some(strategy), Some(iteration), []) <==>
            MetadataSays(items, strategy, iteration)
  {
    var a, b := FindLabelled(items, StrategyLabel), FindLabelled(items, IterationLabel);
    LabelledIff(items, StrategyLabel, StrategyName(strategy));
    if 1 <= iteration {
      LabelledIff(items, IterationLabel, Digits(iteration));
    }
    if a.Some? {
      StrategyReadIff(a.value, strategy);
    }
    if b.Some? {
      IterationReadIff(b.value, iteration);
    }
  }

  lemma MetadataIssues(items: seq<string>)
    ensures var m := ReadMetadata(items); m.issues == [] <==> m.strategy.Some? && m.iteration.Some?
  {
  }

  // ---- The whole review ----

  ghost predicate AllReadable<T>(items: seq<string>, read: string -> Option<T>) {
    forall i :: 0 <= i < |items| ==> read(items[i]).Some?
  }

  ghost predicate ReadAs<T>(items: seq<string>, read: string -> Option<T>, values: seq<T>) {
    |values| == |items| && forall i :: 0 <= i < |items| ==> read(items[i]) == Some(values[i])
  }

  lemma ReadableIff<T>(items: seq<string>, read: string -> Option<T>, malformed: IssueCode, section: string)
    ensures var r := ReadRows(Rows([], []), items, read, malformed, section);
      (r.issues == [] <==> AllReadable(items, read)) && (r.issues == [] ==> ReadAs(items, read, r.value))
  {
    RowsAre(Rows([], []), items, read, malformed, section);
    NoObjections(items, read, malformed, section);
    assert [] + Readings(items, read) == Readings(items, read);
    assert [] + Objections(items, read, malformed, section) == Objections(items, read, malformed, section);
  }

  /** Every list is in order: the metadata, the reports, the findings, the advisories and the coverage. */
  ghost predicate InOrder(lists: Lists, expected: seq<Finding>, norm: string -> string) {
    && (exists strategy, iteration :: MetadataSays(lists.metadata, strategy, iteration))
    && (forall i :: 0 <= i < |lists.previous| ==> Accepts(lists.previous, i, expected, PreviousReader(norm)))
    && (forall f :: f in expected ==> IsAbout(lists.previous, |lists.previous|, PreviousReader(norm), f.id))
    && AllReadable(lists.blocking, BlockingReader(norm)) && AllReadable(lists.advisories, AdvisoryReader(norm))
    && (forall i :: 0 <= i < |lists.coverage| ==> FirstOfArea(lists.coverage, i, CoverageReader(norm)))
    && forall area :: area in RequiredAreas ==>
         Covers(lists.coverage, |lists.coverage|, CoverageReader(norm), area)
  }

  /** The review says what the lists say, row by row. */
  ghost predicate Transcribes(c: Comments, lists: Lists, norm: string -> string) {
    && MetadataSays(lists.metadata, c.strategy, c.iteration)
    && ReadAs(lists.previous, PreviousReader(norm), c.previousFindings)
    && ReadAs(lists.blocking, BlockingReader(norm), c.blockingFindings)
    && ReadAs(lists.advisories, AdvisoryReader(norm), c.advisories)
    && ReadAs(lists.coverage, CoverageReader(norm), c.securityCoverage)
  }

  lemma MetadataInOrder(items: seq<string>)
    ensures var m := ReadMetadata(items);
      && (m.issues == [] <==> exists strategy, iteration :: MetadataSays(items, strategy, iteration))
      && (m.issues == [] ==> m.strategy.Some? && m.iteration.Some? &&
                             MetadataSays(items, m.strategy.value, m.iteration.value))
  {
    var m := ReadMetadata(items);
    MetadataIssues(items);
    if m.issues == [] {
      MetadataIff(items, m.strategy.value, m.iteration.value);
    }
    if strategy, iteration :| MetadataSays(items, strategy, iteration) {
      MetadataIff(items, strategy, iteration);
    }
  }

  /** Lists are accepted exactly when every one is in order and nothing was wrong before, and then as they stand. */
  lemma ListsAcceptedIff(lists: Lists, issues: seq<Issue>, expected: seq<Finding>, norm: string -> string)
    ensures var r := ReadLists(lists, issues, expected, norm);
      && (r.Accepted? <==> issues == [] && InOrder(lists, expected, norm))
      && (r.Accepted? ==> Transcribes(r.value, lists, norm))
  {
    MetadataInOrder(lists.metadata);
    PreviousAcceptedIff(lists.previous, expected, norm);
    ReadableIff(lists.blocking, BlockingReader(norm), MalformedBlockingFinding, BlockingSection);
    ReadableIff(lists.advisories, AdvisoryReader(norm), MalformedAdvisory, AdvisorySection);
    CoverageAcceptedIff(lists.coverage, norm);
    hide ReadMetadata, ReadPreviousItems, ReadRows, ReadCoverageItems, MetadataSays, Accepts, IsAbout, AllReadable,
      FirstOfArea, Covers;
  }

  /** The sections of the canonical part of the text. */
  function ScanOf(text: string): Scan {
    ScanLines(NoSections, Lines(CanonicalSummary(Trim(text))))
  }

  ghost predicate ListedAs(sections: map<string, seq<string>>, name: string, items: seq<string>) {
    name in sections && ListItems(sections[name]) == Some(items)
  }

  /** Each of the five sections is there, and they list this. */
  ghost predicate HoldsIn(scan: Scan, lists: Lists) {
    && ListedAs(scan.sections, MetadataSection, lists.metadata)
    && ListedAs(scan.sections, PreviousSection, lists.previous)
    && ListedAs(scan.sections, BlockingSection, lists.blocking)
    && ListedAs(scan.sections, AdvisorySection, lists.advisories)
    && ListedAs(scan.sections, CoverageSection, lists.coverage)
  }

  /** The text has each of the five sections once, and they list this. */
  ghost predicate HoldsLists(text: string, lists: Lists) {
    Trim(text) != "" && ScanOf(text).duplicates == [] && HoldsIn(ScanOf(text), lists)
  }

  lemma RequiredIff(sections: map<string, seq<string>>, name: string, missing: IssueCode, malformed: IssueCode)
    ensures var r := RequiredList(sections, name, missing, malformed);
      && (r.issues == [] <==> r.items.Some?)
      && (forall items :: r.items == Some(items) <==> ListedAs(sections, name, items))
  {
  }

  /** A text is accepted exactly when it has the five sections, each once and in order, and then as they say. */
  lemma ParseAcceptedIff(text: string, expected: seq<Finding>, norm: string -> string)
    ensures var r := Parse(Some(text), expected, norm);
      && (r.Accepted? <==> exists lists :: HoldsLists(text, lists) && InOrder(lists, expected, norm))
      && (forall lists :: r.Accepted? && HoldsLists(text, lists) ==> Transcribes(r.value, lists, norm))
  {
    var scan := ScanOf(text);
    RequiredIff(scan.sections, MetadataSection, MissingRequiredSection, MalformedListSection);
    RequiredIff(scan.sections, PreviousSection, MissingRequiredSection, MalformedListSection);
    RequiredIff(scan.sections, BlockingSection, MissingRequiredSection, MalformedListSection);
    RequiredIff(scan.sections, AdvisorySection, MissingRequiredSection, MalformedListSection);
    RequiredIff(scan.sections, CoverageSection, MissingSecurityCoverage, MalformedSecurityCoverage);
    forall lists | HoldsLists(text, lists)
      ensures var r := Parse(Some(text), expected, norm);
        (r.Accepted? <==> InOrder(lists, expected, norm)) && (r.Accepted? ==> Transcribes(r.value, lists, norm))
    {
      ListsAcceptedIff(lists, DuplicateIssues([]) + [] + [] + [] + [] + [], expected, norm);
    }
    if Parse(Some(text), expected, norm).Accepted? {
      var lists := AcceptedLists(text, expected, norm);
    }
  }

  /** An accepted text has the five lists. */
  lemma AcceptedLists(text: string, expected: seq<Finding>, norm: string -> string) returns (lists: Lists)
    requires Parse(Some(text), expected, norm).Accepted?
    ensures HoldsLists(text, lists) && InOrder(lists, expected, norm)
    ensures Transcribes(Parse(Some(text), expected, norm).value, lists, norm)
  {
    hide RequiredList, ListedAs, ListItems, ReadLists, InOrder, Transcribes, ScanLines, Lines;
    var scan := ScanOf(text);
    var sections := scan.sections;
    var metadata := RequiredList(sections, MetadataSection, MissingRequiredSection, MalformedListSection);
    var previous := RequiredList(sections, PreviousSection, MissingRequiredSection, MalformedListSection);
    var blocking := RequiredList(sections, BlockingSection, MissingRequiredSection, MalformedListSection);
    var advisories := RequiredList(sections, AdvisorySection, MissingRequiredSection, MalformedListSection);
    var coverage := RequiredList(sections, CoverageSection, MissingSecurityCoverage, MalformedSecurityCoverage);
    RequiredIff(sections, MetadataSection, MissingRequiredSection, MalformedListSection);
    RequiredIff(sections, PreviousSection, MissingRequiredSection, MalformedListSection);
    RequiredIff(sections, BlockingSection, MissingRequiredSection, MalformedListSection);
    RequiredIff(sections, AdvisorySection, MissingRequiredSection, MalformedListSection);
    RequiredIff(sections, CoverageSection, MissingSecurityCoverage, MalformedSecurityCoverage);
    lists := Lists(metadata.items.value, previous.items.value, blocking.items.value, advisories.items.value,
                   coverage.items.value);
    var issues := DuplicateIssues(scan.duplicates) + metadata.issues + previous.issues + blocking.issues +
                  advisories.issues + coverage.issues;
    ListsAcceptedIff(lists, issues, expected, norm);
    assert |DuplicateIssues(scan.duplicates)| == |scan.duplicates|;
  }

  // ---- What is cut off, and what a rejected review is told ----

  /** The raw part begins at the first line break before its heading. */
  lemma {:induction false} CutIsFirst(s: string)
    ensures |BeforeRaw(s)| <= |s| && BeforeRaw(s) == s[..|BeforeRaw(s)|]
    ensures |BeforeRaw(s)| < |s| ==> CutsHere(s[|BeforeRaw(s)|..])
    ensures forall i :: 0 <= i < |BeforeRaw(s)| ==> !CutsHere(s[i..])
  {
    if s != "" && !CutsHere(s) {
      CutIsFirst(s[1..]);
      var n := |BeforeRaw(s[1..])|;
      assert s[n + 1..] == s[1..][n..];
      forall i | 0 <= i < n + 1
        ensures !CutsHere(s[i..])
      {
        if i > 0 {
          assert s[i..] == s[1..][i - 1..];
        } else {
          assert s[0..] == s;
        }
      }
    }
  }

  /** What is parsed is the text before the raw part; all of it, if there is nothing before. */
  lemma SummaryIs(s: string) returns (n: nat)
    ensures n <= |s| && (n < |s| ==> CutsHere(s[n..])) && forall i :: 0 <= i < n ==> !CutsHere(s[i..])
    ensures CanonicalSummary(s) == if Trim(s[..n]) == "" then s else Trim(s[..n])
  {
    n := |BeforeRaw(s)|;
    CutIsFirst(s);
  }

  /** What is wrong with the metadata: a label that is missing, and a value that is missing or unknown. */
  ghost predicate MetadataObjections(items: seq<string>, issues: seq<Issue>) {
    var a := exists i: nat, text :: SaysBehind(items, i, StrategyLabel, text);
    var b := exists i: nat, text :: SaysBehind(items, i, IterationLabel, text);
    var c := exists i: nat, strategy :: SaysBehind(items, i, StrategyLabel, StrategyName(strategy));
    var d := exists i: nat, k: nat :: 1 <= k <= MaxSafeInteger && SaysBehind(items, i, IterationLabel, Digits(k));
    issues ==
      (if a then [] else [Issue(MissingMetadata, MetadataSection, None, Some(StrategyLabel))]) +
      (if b then [] else [Issue(MissingMetadata, MetadataSection, None, Some(IterationLabel))]) +
      (if c then [] else [Issue(InvalidMetadata, MetadataSection, None, Some(StrategyLabel))]) +
      (if d then [] else [Issue(InvalidMetadata, MetadataSection, None, Some(IterationLabel))])
  }

  lemma LabelledSome(items: seq<string>, marker: string)
    ensures FindLabelled(items, marker).Some? <==> exists i: nat, text :: SaysBehind(items, i, marker, text)
  {
    if FindLabelled(items, marker).Some? {
      LabelledIff(items, marker, FindLabelled(items, marker).value);
    }
    if i: nat, text :| SaysBehind(items, i, marker, text) {
      LabelledIff(items, marker, text);
    }
  }

  lemma StrategyKnown(items: seq<string>)
    ensures ReadMetadata(items).strategy.Some? <==>
            exists i: nat, strategy :: SaysBehind(items, i, StrategyLabel, StrategyName(strategy))
  {
    var text := FindLabelled(items, StrategyLabel);
    if ReadMetadata(items).strategy.Some? {
      StrategyReadIff(text.value, ReadMetadata(items).strategy.value);
      LabelledIff(items, StrategyLabel, text.value);
    }
    if i: nat, strategy :| SaysBehind(items, i, StrategyLabel, StrategyName(strategy)) {
      LabelledIff(items, StrategyLabel, StrategyName(strategy));
      StrategyReadIff(StrategyName(strategy), strategy);
    }
  }

  lemma IterationKnown(items: seq<string>)
    ensures ReadMetadata(items).iteration.Some? <==>
            exists i: nat, k: nat :: 1 <= k <= MaxSafeInteger && SaysBehind(items, i, IterationLabel, Digits(k))
  {
    var text := FindLabelled(items, IterationLabel);
    if ReadMetadata(items).iteration.Some? {
      IterationReadIff(text.value, ReadMetadata(items).iteration.value);
      LabelledIff(items, IterationLabel, text.value);
    }
    if i: nat, k: nat :| 1 <= k <= MaxSafeInteger && SaysBehind(items, i, IterationLabel, Digits(k)) {
      LabelledIff(items, IterationLabel, Digits(k));
      IterationReadIff(Digits(k), k);
    }
  }

  lemma MetadataObjectionsAre(items: seq<string>)
    ensures MetadataObjections(items, ReadMetadata(items).issues)
  {
    LabelledSome(items, StrategyLabel);
    LabelledSome(items, IterationLabel);
    StrategyKnown(items);
    IterationKnown(items);
  }

  /** An issue for each expected finding, in order, that no row is about. */
  ghost function MissingReports(previousFindings: seq<Finding>, items: seq<string>,
                                read: string -> Option<PreviousFinding>): seq<Issue>
  {
    if previousFindings == [] then []
    else
      var id := Last(previousFindings).id;
      MissingReports(Init(previousFindings), items, read) +
      if IsAbout(items, |items|, read, id) then []
      else [Issue(MissingPreviousFinding, PreviousSection, None, Some(id))]
  }

  lemma {:induction false} MissingAre(previousFindings: seq<Finding>, items: seq<string>,
                                      read: string -> Option<PreviousFinding>, seen: set<string>)
    requires forall id :: id in seen <==> IsAbout(items, |items|, read, id)
    ensures MissingPrevious(previousFindings, seen) == MissingReports(previousFindings, items, read)
  {
    if previousFindings != [] {
      MissingAre(Init(previousFindings), items, read, seen);
    }
  }

  lemma PreviousIssuesAre(items: seq<string>, expected: seq<Finding>, norm: string -> string)
    ensures ReadPreviousItems(items, expected, norm).issues ==
            RejectedRows(items, |items|, expected, PreviousReader(norm)) +
            MissingReports(expected, items, PreviousReader(norm))
  {
    var read := PreviousReader(norm);
    assert items[..|items|] == items;
    PreviousRowsAre(items, |items|, expected, read);
    MissingAre(expected, items, read, PreviousRows(KeyedRows([], {}, []), items, ExpectedSources(expected), read).seen);
  }

  /** An issue for each required area, in order, that no row covers. */
  ghost function MissingCoverage(areas: seq<string>, items: seq<string>, read: string -> Option<Coverage>): seq<Issue> {
    if areas == [] then []
    else MissingCoverage(Init(areas), items, read) +
         if Covers(items, |items|, read, Last(areas)) then []
         else [Issue(MissingSecurityCoverageArea, CoverageSection, None, Some(Last(areas)))]
  }

  lemma {:induction false} AreasMissingAre(areas: seq<string>, items: seq<string>, read: string -> Option<Coverage>,
                                           seen: set<string>)
    requires forall area :: area in seen <==> Covers(items, |items|, read, area)
    ensures MissingAreas(areas, seen) == MissingCoverage(areas, items, read)
  {
    if areas != [] {
      AreasMissingAre(Init(areas), items, read, seen);
    }
  }

  lemma CoverageIssuesAre(items: seq<string>, norm: string -> string)
    ensures ReadCoverageItems(items, norm).issues ==
            RejectedCoverage(items, |items|, CoverageReader(norm)) +
            MissingCoverage(RequiredAreas, items, CoverageReader(norm))
  {
    var read := CoverageReader(norm);
    assert items[..|items|] == items;
    CoverageRowsAre(items, |items|, read);
    AreasMissingAre(RequiredAreas, items, read, CoverageRows(KeyedRows([], {}, []), items, read).seen);
  }

  /** What is wrong with the rows of the lists. */
  ghost function RowObjections(lists: Lists, expected: seq<Finding>, norm: string -> string): seq<Issue> {
    RejectedRows(lists.previous, |lists.previous|, expected, PreviousReader(norm)) +
    MissingReports(expected, lists.previous, PreviousReader(norm)) +
    Objections(lists.blocking, BlockingReader(norm), MalformedBlockingFinding, BlockingSection) +
    Objections(lists.advisories, AdvisoryReader(norm), MalformedAdvisory, AdvisorySection) +
    RejectedCoverage(lists.coverage, |lists.coverage|, CoverageReader(norm)) +
    MissingCoverage(RequiredAreas, lists.coverage, CoverageReader(norm))
  }

  lemma Grouped(issues: seq<Issue>, m: seq<Issue>, a: seq<Issue>, b: seq<Issue>, c: seq<Issue>, d: seq<Issue>,
                e: seq<Issue>, f: seq<Issue>)
    ensures issues + m + (a + b) + c + d + (e + f) == issues + m + (a + b + c + d + e + f)
  {
  }

  /** A rejected review is told everything that is wrong with its lists, in the order of the sections. */
  lemma RejectedIsTold(lists: Lists, issues: seq<Issue>, expected: seq<Finding>, norm: string -> string)
    requires ReadLists(lists, issues, expected, norm).Rejected?
    ensures exists metadata :: MetadataObjections(lists.metadata, metadata) &&
              ReadLists(lists, issues, expected, norm).issues == issues + metadata + RowObjections(lists, expected, norm)
  {
    hide *;
    var previous, coverage := PreviousReader(norm), CoverageReader(norm);
    var blocking := Objections(lists.blocking, BlockingReader(norm), MalformedBlockingFinding, BlockingSection);
    var advisories := Objections(lists.advisories, AdvisoryReader(norm), MalformedAdvisory, AdvisorySection);
    MetadataObjectionsAre(lists.metadata);
    ListIssuesAre(lists, issues, expected, norm);
    Grouped(issues, ReadMetadata(lists.metadata).issues,
            RejectedRows(lists.previous, |lists.previous|, expected, previous),
            MissingReports(expected, lists.previous, previous), blocking, advisories,
            RejectedCoverage(lists.coverage, |lists.coverage|, coverage),
            MissingCoverage(RequiredAreas, lists.coverage, coverage));
    RowObjectionsAre(lists, expected, norm);
  }

  lemma RowObjectionsAre(lists: Lists, expected: seq<Finding>, norm: string -> string)
    ensures RowObjections(lists, expected, norm) ==
            RejectedRows(lists.previous, |lists.previous|, expected, PreviousReader(norm)) +
            MissingReports(expected, lists.previous, PreviousReader(norm)) +
            Objections(lists.blocking, BlockingReader(norm), MalformedBlockingFinding, BlockingSection) +
            Objections(lists.advisories, AdvisoryReader(norm), MalformedAdvisory, AdvisorySection) +
            RejectedCoverage(lists.coverage, |lists.coverage|, CoverageReader(norm)) +
            MissingCoverage(RequiredAreas, lists.coverage, CoverageReader(norm))
  {
  }

  lemma ListIssuesAre(lists: Lists, issues: seq<Issue>, expected: seq<Finding>, norm: string -> string)
    requires ReadLists(lists, issues, expected, norm).Rejected?
    ensures ReadLists(lists, issues, expected, norm).issues ==
            issues + ReadMetadata(lists.metadata).issues +
            (RejectedRows(lists.previous, |lists.previous|, expected, PreviousReader(norm)) +
             MissingReports(expected, lists.previous, PreviousReader(norm))) +
            Objections(lists.blocking, BlockingReader(norm), MalformedBlockingFinding, BlockingSection) +
            Objections(lists.advisories, AdvisoryReader(norm), MalformedAdvisory, AdvisorySection) +
            (RejectedCoverage(lists.coverage, |lists.coverage|, CoverageReader(norm)) +
             MissingCoverage(RequiredAreas, lists.coverage, CoverageReader(norm)))
  {
    PreviousIssuesAre(lists.previous, expected, norm);
    RowsAre(Rows([], []), lists.blocking, BlockingReader(norm), MalformedBlockingFinding, BlockingSection);
    RowsAre(Rows([], []), lists.advisories, AdvisoryReader(norm), MalformedAdvisory, AdvisorySection);
    CoverageIssuesAre(lists.coverage, norm);
    NothingBefore(Objections(lists.blocking, BlockingReader(norm), MalformedBlockingFinding, BlockingSection));
    NothingBefore(Objections(lists.advisories, AdvisoryReader(norm), MalformedAdvisory, AdvisorySection));
    hide ReadMetadata, ReadPreviousItems, ReadRows, ReadCoverageItems, RejectedRows, Objections, RejectedCoverage,
      MissingReports, MissingCoverage;
  }

  lemma NothingBefore<T>(s: seq<T>)
    ensures [] + s == s
  {
  }

  /** What is wrong with a section that is missing or malformed. */
  ghost function SectionObjection(sections: map<string, seq<string>>, name: string, missing: IssueCode,
                                  malformed: IssueCode): seq<Issue>
  {
    if name !in sections then [Issue(missing, name, None, None)]
    else if !exists items :: ListedAs(sections, name, items) then [Issue(malformed, name, None, None)]
    else []
  }

  lemma SectionObjectionIs(sections: map<string, seq<string>>, name: string, missing: IssueCode, malformed: IssueCode)
    ensures RequiredList(sections, name, missing, malformed).issues ==
            SectionObjection(sections, name, missing, malformed)
  {
    RequiredIff(sections, name, missing, malformed);
    if name in sections && ListItems(sections[name]).Some? {
      assert ListedAs(sections, name, ListItems(sections[name]).value);
    }
  }

  /** With the five lists it is told about names that repeat, and then what is wrong with the lists. */
  lemma ListedIsTold(text: string, lists: Lists, expected: seq<Finding>, norm: string -> string)
    requires Trim(text) != "" && HoldsIn(ScanOf(text), lists)
    ensures Parse(Some(text), expected, norm) ==
            ReadLists(lists, DuplicateIssues(ScanOf(text).duplicates), expected, norm)
  {
    var sections, issues := ScanOf(text).sections, DuplicateIssues(ScanOf(text).duplicates);
    RequiredIff(sections, MetadataSection, MissingRequiredSection, MalformedListSection);
    RequiredIff(sections, PreviousSection, MissingRequiredSection, MalformedListSection);
    RequiredIff(sections, BlockingSection, MissingRequiredSection, MalformedListSection);
    RequiredIff(sections, AdvisorySection, MissingRequiredSection, MalformedListSection);
    RequiredIff(sections, CoverageSection, MissingSecurityCoverage, MalformedSecurityCoverage);
    assert issues + [] == issues;
    hide RequiredList, ListedAs, ReadLists, ListItems, ScanOf;
  }

  predicate IsListed(sections: map<string, seq<string>>, name: string) {
    name in sections && ListItems(sections[name]).Some?
  }

  lemma AllListed(scan: Scan)
    requires IsListed(scan.sections, MetadataSection) && IsListed(scan.sections, PreviousSection)
    requires IsListed(scan.sections, BlockingSection) && IsListed(scan.sections, AdvisorySection)
    requires IsListed(scan.sections, CoverageSection)
    ensures exists lists :: HoldsIn(scan, lists)
  {
    var sections := scan.sections;
    assert HoldsIn(scan, Lists(ListItems(sections[MetadataSection]).value, ListItems(sections[PreviousSection]).value,
                               ListItems(sections[BlockingSection]).value, ListItems(sections[AdvisorySection]).value,
                               ListItems(sections[CoverageSection]).value));
  }

  lemma SomeUnlisted(scan: Scan)
    requires !exists lists :: HoldsIn(scan, lists)
    ensures !IsListed(scan.sections, MetadataSection) || !IsListed(scan.sections, PreviousSection) ||
            !IsListed(scan.sections, BlockingSection) || !IsListed(scan.sections, AdvisorySection) ||
            !IsListed(scan.sections, CoverageSection)
  {
    if IsListed(scan.sections, MetadataSection) && IsListed(scan.sections, PreviousSection) &&
       IsListed(scan.sections, BlockingSection) && IsListed(scan.sections, AdvisorySection) &&
       IsListed(scan.sections, CoverageSection) {
      AllListed(scan);
    }
  }

  /** Without the five lists a text is told which names repeat and which sections are missing or malformed. */
  lemma UnlistedIsTold(text: string, expected: seq<Finding>, norm: string -> string)
    requires Trim(text) != "" && !exists lists :: HoldsIn(ScanOf(text), lists)
    ensures var sections, names := ScanOf(text).sections, ScanOf(text).duplicates;
      Parse(Some(text), expected, norm) == Rejected(
        DuplicateIssues(names) +
        SectionObjection(sections, MetadataSection, MissingRequiredSection, MalformedListSection) +
        SectionObjection(sections, PreviousSection, MissingRequiredSection, MalformedListSection) +
        SectionObjection(sections, BlockingSection, MissingRequiredSection, MalformedListSection) +
        SectionObjection(sections, AdvisorySection, MissingRequiredSection, MalformedListSection) +
        SectionObjection(sections, CoverageSection, MissingSecurityCoverage, MalformedSecurityCoverage))
  {
    var sections := ScanOf(text).sections;
    SectionObjectionIs(sections, MetadataSection, MissingRequiredSection, MalformedListSection);
    SectionObjectionIs(sections, PreviousSection, MissingRequiredSection, MalformedListSection);
    SectionObjectionIs(sections, BlockingSection, MissingRequiredSection, MalformedListSection);
    SectionObjectionIs(sections, AdvisorySection, MissingRequiredSection, MalformedListSection);
    SectionObjectionIs(sections, CoverageSection, MissingSecurityCoverage, MalformedSecurityCoverage);
    SomeUnlisted(ScanOf(text));
    hide SectionObjection, ReadLists, ScanOf, HoldsIn, ListItems;
  }

  // ---- What holds of every accepted review ----

  lemma ReportsAreDistinct(items: seq<string>, values: seq<PreviousFinding>, expected: seq<Finding>,
                           read: string -> Option<PreviousFinding>)
    requires ReadAs(items, read, values) && forall i :: 0 <= i < |items| ==> Accepts(items, i, expected, read)
    ensures forall i, j :: 0 <= i < j < |values| ==> values[i].id != values[j].id
    ensures forall i :: 0 <= i < |values| ==> Expects(expected, values[i])
  {
    forall i | 0 <= i < |items|
      ensures FirstAbout(items, i, read) && Expects(expected, values[i])
    {
      assert Accepts(items, i, expected, read);
    }
  }

  lemma AreasAreDistinct(items: seq<string>, values: seq<Coverage>, read: string -> Option<Coverage>)
    requires ReadAs(items, read, values) && forall i :: 0 <= i < |items| ==> FirstOfArea(items, i, read)
    ensures forall i, j :: 0 <= i < j < |values| ==> values[i].area != values[j].area
  {
    forall i, j | 0 <= i < j < |values|
      ensures values[i].area != values[j].area
    {
      assert FirstOfArea(items, j, read) && read(items[i]) == Some(values[i]);
    }
  }

  /**
    Every accepted review has a positive iteration, reports on each expected finding once, under its source, and on
    nothing else, and covers every required area once.
   */
  lemma AcceptedIsSound(text: string, expected: seq<Finding>, norm: string -> string)
    requires Parse(Some(text), expected, norm).Accepted?
    ensures var c := Parse(Some(text), expected, norm).value;
      && 1 <= c.iteration <= MaxSafeInteger
      && (forall i, j :: 0 <= i < j < |c.previousFindings| ==> c.previousFindings[i].id != c.previousFindings[j].id)
      && (forall i :: 0 <= i < |c.previousFindings| ==> Expects(expected, c.previousFindings[i]))
      && (forall f :: f in expected ==> exists i :: 0 <= i < |c.previousFindings| && c.previousFindings[i].id == f.id)
      && (forall i, j :: 0 <= i < j < |c.securityCoverage| ==> c.securityCoverage[i].area != c.securityCoverage[j].area)
      && (forall area :: area in RequiredAreas ==>
            exists i :: 0 <= i < |c.securityCoverage| && c.securityCoverage[i].area == area)
  {
    var c := Parse(Some(text), expected, norm).value;
    hide Parse, HoldsLists, InOrder, Transcribes;
    var lists := AcceptedLists(text, expected, norm);
    ParsedInOrder(c, lists, expected, norm);
  }

  lemma ParsedInOrder(c: Comments, lists: Lists, expected: seq<Finding>, norm: string -> string)
    requires InOrder(lists, expected, norm) && Transcribes(c, lists, norm)
    ensures 1 <= c.iteration <= MaxSafeInteger
    ensures forall i, j :: 0 <= i < j < |c.previousFindings| ==> c.previousFindings[i].id != c.previousFindings[j].id
    ensures forall i :: 0 <= i < |c.previousFindings| ==> Expects(expected, c.previousFindings[i])
    ensures forall f :: f in expected ==> exists i :: 0 <= i < |c.previousFindings| && c.previousFindings[i].id == f.id
    ensures forall i, j :: 0 <= i < j < |c.securityCoverage| ==> c.securityCoverage[i].area != c.securityCoverage[j].area
    ensures forall area :: area in RequiredAreas ==>
              exists i :: 0 <= i < |c.securityCoverage| && c.securityCoverage[i].area == area
  {
    ReportsAreDistinct(lists.previous, c.previousFindings, expected, PreviousReader(norm));
    AreasAreDistinct(lists.coverage, c.securityCoverage, CoverageReader(norm));
    forall f | f in expected
      ensures exists i :: 0 <= i < |c.previousFindings| && c.previousFindings[i].id == f.id
    {
      assert IsAbout(lists.previous, |lists.previous|, PreviousReader(norm), f.id);
      var i :| 0 <= i < |lists.previous| && PreviousReader(norm)(lists.previous[i]).Some? &&
               PreviousReader(norm)(lists.previous[i]).value.id == f.id;
      assert c.previousFindings[i].id == f.id;
    }
    forall area | area in RequiredAreas
      ensures exists i :: 0 <= i < |c.securityCoverage| && c.securityCoverage[i].area == area
    {
      assert Covers(lists.coverage, |lists.coverage|, CoverageReader(norm), area);
      var i :| 0 <= i < |lists.coverage| && CoverageReader(norm)(lists.coverage[i]).Some? &&
               CoverageReader(norm)(lists.coverage[i]).value.area == area;
      assert c.securityCoverage[i].area == area;
    }
  }
}
