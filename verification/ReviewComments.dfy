/**
  The canonical review comments: the printer and the parser
  (packages/agent/src/reviewContract.ts:694-781, 943-1254).
 */
module ReviewComments {
  import opened Collections
  import opened ReviewText
  import opened ReviewSections
  import opened ReviewFindings
  import opened ReviewRows

  // ---- Numbers ----

  const MaxSafeInteger := 9007199254740991

  function Digit(d: nat): char
    requires d < 10
  {
    '0' + d as char
  }

  function Digits(n: nat): string {
    if n < 10 then [Digit(n)] else Digits(n / 10) + [Digit(n % 10)]
  }

  predicate IsDigit(c: char) {
    '0' <= c <= '9'
  }

  function ValueOf(s: string): int {
    if s == "" then 0 else ValueOf(s[..|s| - 1]) * 10 + (s[|s| - 1] as int - '0' as int)
  }

  predicate PositiveNumeral(s: string) {
    s != "" && s[0] != '0' && forall i :: 0 <= i < |s| ==> IsDigit(s[i])
  }

  function ReadIteration(s: string): Option<int> {
    if PositiveNumeral(s) && ValueOf(s) <= MaxSafeInteger then Some(ValueOf(s)) else None
  }

  lemma {:induction false} DigitsRead(n: nat)
    ensures ValueOf(Digits(n)) == n
    ensures n > 0 ==> PositiveNumeral(Digits(n))
  {
    if n >= 10 {
      DigitsRead(n / 10);
      var s := Digits(n);
      assert s[..|s| - 1] == Digits(n / 10);
    } else {
      assert ValueOf([Digit(n)]) == ValueOf("") * 10 + n;
    }
  }

  // ---- What comments say ----

  datatype Comments = Comments(
    strategy: Strategy, iteration: int, previousFindings: seq<PreviousFinding>, blockingFindings: seq<Finding>,
    advisories: seq<Advisory>, securityCoverage: seq<Coverage>)

  datatype IssueCode =
    | MissingRequiredSection | DuplicateSection | MalformedListSection | MissingMetadata | InvalidMetadata
    | MalformedPreviousFinding | MissingPreviousFinding | UnknownPreviousFinding | DuplicatePreviousFinding
    | MissingSecurityCoverage | MalformedSecurityCoverage | MissingSecurityCoverageArea
    | DuplicateSecurityCoverageArea | MalformedBlockingFinding | MalformedAdvisory

  /** row: the row that was rejected; about: the finding, area or metadata entry that is missing or repeated. */
  datatype Issue = Issue(code: IssueCode, section: string, row: Option<string>, about: Option<string>)

  /** The issues in the order in which they are found. */
  datatype ParseResult = Accepted(value: Comments) | Rejected(issues: seq<Issue>)

  // ---- The printer ----

  function StrategyName(strategy: Strategy): string {
    if strategy == FullReReview then "full_re_review" else "closure_first"
  }

  function StrategyNamed(name: string): Option<Strategy> {
    if name == "full_re_review" then Some(FullReReview)
    else if name == "closure_first" then Some(ClosureFirst)
    else None
  }

  const StrategyLabel := "Strategy: "
  const IterationLabel := "Review Iteration: "

  function MetadataItems(c: Comments): seq<string>
    requires c.iteration >= 0
  {
    [StrategyLabel + StrategyName(c.strategy), IterationLabel + Digits(c.iteration)]
  }

  function PreviousItems(c: Comments, norm: string -> string): seq<string> {
    Map(c.previousFindings, f => PreviousItem(f, norm))
  }

  function BlockingItems(c: Comments, norm: string -> string): seq<string> {
    Map(c.blockingFindings, f => BlockingItem(f, norm))
  }

  function AdvisoryItems(c: Comments, norm: string -> string): seq<string> {
    Map(c.advisories, a => AdvisoryItem(a, norm))
  }

  function CoverageItems(c: Comments, norm: string -> string): seq<string> {
    Map(c.securityCoverage, x => CoverageItem(x, norm))
  }

  const MetadataSection := "Auto Review Metadata"
  const PreviousSection := "Previous Findings"
  const BlockingSection := "Blocking Findings"
  const AdvisorySection := "Advisories"
  const CoverageSection := "Security Coverage"

  /** The five lists of a document. */
  datatype Lists = Lists(
    metadata: seq<string>, previous: seq<string>, blocking: seq<string>, advisories: seq<string>,
    coverage: seq<string>)

  function ListsOf(c: Comments, norm: string -> string): Lists
    requires c.iteration >= 0
  {
    Lists(MetadataItems(c), PreviousItems(c, norm), BlockingItems(c, norm), AdvisoryItems(c, norm),
          CoverageItems(c, norm))
  }

  function CanonicalBlocks(lists: Lists): seq<Block> {
    [Block(MetadataSection, SectionRows(lists.metadata)),
     Block(PreviousSection, SectionRows(lists.previous)),
     Block(BlockingSection, SectionRows(lists.blocking)),
     Block(AdvisorySection, SectionRows(lists.advisories)),
     Block(CoverageSection, SectionRows(lists.coverage))]
  }

  function DocumentLines(blocks: seq<Block>): seq<string> {
    if blocks == [] then [] else BlockLines(blocks[0]) + DocumentLines(blocks[1..])
  }

  datatype RawOutput = RawOutput(role: string, output: string)

  function OrDefault(s: string, default_: string): string {
    if s == "" then default_ else s
  }

  function RawSpecializedLines(raws: seq<RawOutput>, redact: string -> string): seq<string> {
    if raws == [] then []
    else ["", "## Raw Specialized Review: " + raws[0].role,
          OrDefault(redact(Trim(raws[0].output)), "No " + raws[0].role + " reviewer output.")]
         + RawSpecializedLines(raws[1..], redact)
  }

  /** What follows the raw section heading. */
  function RawLines(rawCodeReview: string, rawSecurityAudit: string, raws: seq<RawOutput>, redact: string -> string)
    : seq<string>
  {
    [OrDefault(redact(Trim(rawCodeReview)), "No code review output."),
     "",
     "## Raw Security Audit",
     OrDefault(redact(Trim(rawSecurityAudit)), "No security audit output.")]
    + RawSpecializedLines(raws, redact)
  }

  /** The comments with any raw lines after the canonical part. */
  function Print(c: Comments, norm: string -> string, rawLines: seq<string>): string
    requires c.iteration >= 0
  {
    Join(DocumentLines(CanonicalBlocks(ListsOf(c, norm))) + [RawHeading] + rawLines)
  }

  // ---- Reading the rows of a section ----

  datatype Rows<T> = Rows(value: seq<T>, issues: seq<Issue>)

  function BadRow(code: IssueCode, section: string, row: string, about: Option<string>): Issue {
    Issue(code, section, Some(row), about)
  }

  function SectionIssue(code: IssueCode, section: string, about: Option<string>): Issue {
    Issue(code, section, None, about)
  }

  function ReadRow<T>(st: Rows<T>, item: string, read: string -> Option<T>, malformed: IssueCode, section: string)
    : Rows<T>
  {
    match read(item)
    case None => st.(issues := st.issues + [BadRow(malformed, section, item, None)])
    case Some(v) => st.(value := st.value + [v])
  }

  function ReadRows<T>(st: Rows<T>, items: seq<string>, read: string -> Option<T>, malformed: IssueCode,
                       section: string): Rows<T>
    decreases |items|
  {
    if items == [] then st
    else ReadRows(ReadRow(st, items[0], read, malformed, section), items[1..], read, malformed, section)
  }

  function BlockingReader(norm: string -> string): string -> Option<Finding> {
    item => ReadBlocking(item, norm)
  }

  function AdvisoryReader(norm: string -> string): string -> Option<Advisory> {
    item => ReadAdvisory(item, norm)
  }

  /** The rows so far and the ids or areas they were about. */
  datatype KeyedRows<T> = KeyedRows(value: seq<T>, seen: set<string>, issues: seq<Issue>)

  /** The source expected for each previous finding's id; a later finding replaces an earlier one. */
  function ExpectedSources(previousFindings: seq<Finding>): map<string, string> {
    if previousFindings == [] then map[]
    else
      var last := previousFindings[|previousFindings| - 1];
      ExpectedSources(previousFindings[..|previousFindings| - 1])[last.id := last.source]
  }

  predicate Agrees(expected: map<string, string>, f: PreviousFinding) {
    expected == map[] || (f.id in expected && expected[f.id] == f.source)
  }

  function PreviousReader(norm: string -> string): string -> Option<PreviousFinding> {
    item => ReadPrevious(item, norm)
  }

  function PreviousRow(st: KeyedRows<PreviousFinding>, item: string, expected: map<string, string>,
                       read: string -> Option<PreviousFinding>): KeyedRows<PreviousFinding>
  {
    match read(item)
    case None => st.(issues := st.issues + [BadRow(MalformedPreviousFinding, PreviousSection, item, None)])
    case Some(f) =>
      if f.id in st.seen then
        st.(issues := st.issues + [BadRow(DuplicatePreviousFinding, PreviousSection, item, Some(f.id))])
      else if !Agrees(expected, f) then
        var code := if f.id in expected then MalformedPreviousFinding else UnknownPreviousFinding;
        st.(seen := st.seen + {f.id}, issues := st.issues + [BadRow(code, PreviousSection, item, Some(f.id))])
      else st.(value := st.value + [f], seen := st.seen + {f.id})
  }

  function PreviousRows(st: KeyedRows<PreviousFinding>, items: seq<string>, expected: map<string, string>,
                        read: string -> Option<PreviousFinding>): KeyedRows<PreviousFinding>
    decreases |items|
  {
    if items == [] then st else PreviousRows(PreviousRow(st, items[0], expected, read), items[1..], expected, read)
  }

  /** The expected findings that no row was about, each time they are expected. */
  function MissingPrevious(previousFindings: seq<Finding>, seen: set<string>): seq<Issue> {
    if previousFindings == [] then []
    else
      var id := Last(previousFindings).id;
      MissingPrevious(Init(previousFindings), seen) +
      if id in seen then [] else [SectionIssue(MissingPreviousFinding, PreviousSection, Some(id))]
  }

  function ReadPreviousItems(items: seq<string>, previousFindings: seq<Finding>, norm: string -> string)
    : Rows<PreviousFinding>
  {
    var st := PreviousRows(KeyedRows([], {}, []), items, ExpectedSources(previousFindings), PreviousReader(norm));
    Rows(st.value, st.issues + MissingPrevious(previousFindings, st.seen))
  }

  function CoverageReader(norm: string -> string): string -> Option<Coverage> {
    item => ReadCoverage(item, norm)
  }

  function CoverageRow(st: KeyedRows<Coverage>, item: string, read: string -> Option<Coverage>): KeyedRows<Coverage> {
    match read(item)
    case None => st.(issues := st.issues + [BadRow(MalformedSecurityCoverage, CoverageSection, item, None)])
    case Some(c) =>
      if c.area in st.seen then
        st.(issues := st.issues + [BadRow(DuplicateSecurityCoverageArea, CoverageSection, item, Some(c.area))])
      else st.(value := st.value + [c], seen := st.seen + {c.area})
  }

  function CoverageRows(st: KeyedRows<Coverage>, items: seq<string>, read: string -> Option<Coverage>)
    : KeyedRows<Coverage>
    decreases |items|
  {
    if items == [] then st else CoverageRows(CoverageRow(st, items[0], read), items[1..], read)
  }

  function MissingAreas(areas: seq<string>, seen: set<string>): seq<Issue> {
    if areas == [] then []
    else
      MissingAreas(Init(areas), seen) +
      if Last(areas) in seen then []
      else [SectionIssue(MissingSecurityCoverageArea, CoverageSection, Some(Last(areas)))]
  }

  /** There is a value only when there are no issues. */
  datatype CoverageResult = CoverageResult(value: Option<seq<Coverage>>, issues: seq<Issue>)

  function ReadCoverageItems(items: seq<string>, norm: string -> string): CoverageResult {
    var st := CoverageRows(KeyedRows([], {}, []), items, CoverageReader(norm));
    var issues := st.issues + MissingAreas(RequiredAreas, st.seen);
    CoverageResult(if issues == [] then Some(st.value) else None, issues)
  }

  // ---- The parser ----

  datatype Required = Required(items: Option<seq<string>>, issues: seq<Issue>)

  function RequiredList(sections: map<string, seq<string>>, name: string, missing: IssueCode, malformed: IssueCode)
    : Required
  {
    if name !in sections then Required(None, [SectionIssue(missing, name, None)])
    else
      var items := ListItems(sections[name]);
      Required(items, if items.None? then [SectionIssue(malformed, name, None)] else [])
  }

  function FindLabelled(items: seq<string>, marker: string): Option<string> {
    if items == [] then None
    else if StartsWith(items[0], marker) then Some(Trim(items[0][|marker|..]))
    else FindLabelled(items[1..], marker)
  }

  datatype Metadata = Metadata(strategy: Option<Strategy>, iteration: Option<int>, issues: seq<Issue>)

  function IssueIf(condition: bool, code: IssueCode, about: string): seq<Issue> {
    if condition then [SectionIssue(code, MetadataSection, Some(about))] else []
  }

  function ReadMetadata(items: seq<string>): Metadata {
    var strategyText := FindLabelled(items, StrategyLabel);
    var iterationText := FindLabelled(items, IterationLabel);
    var strategy := if strategyText.Some? then StrategyNamed(strategyText.value) else None;
    var iteration := if iterationText.Some? then ReadIteration(iterationText.value) else None;
    Metadata(strategy, iteration,
             IssueIf(strategyText.None?, MissingMetadata, StrategyLabel) +
             IssueIf(iterationText.None?, MissingMetadata, IterationLabel) +
             IssueIf(strategy.None?, InvalidMetadata, StrategyLabel) +
             IssueIf(iteration.None?, InvalidMetadata, IterationLabel))
  }

  function ReadLists(lists: Lists, issues: seq<Issue>, expected: seq<Finding>, norm: string -> string): ParseResult {
    var metadata := ReadMetadata(lists.metadata);
    var previous := ReadPreviousItems(lists.previous, expected, norm);
    var blocking := ReadRows(Rows([], []), lists.blocking, BlockingReader(norm), MalformedBlockingFinding,
                             BlockingSection);
    var advisories := ReadRows(Rows([], []), lists.advisories, AdvisoryReader(norm), MalformedAdvisory,
                               AdvisorySection);
    var coverage := ReadCoverageItems(lists.coverage, norm);
    var all := issues + metadata.issues + previous.issues + blocking.issues + advisories.issues + coverage.issues;
    if all != [] || metadata.strategy.None? || metadata.iteration.None? || coverage.value.None? then Rejected(all)
    else Accepted(Comments(metadata.strategy.value, metadata.iteration.value, previous.value, blocking.value,
                           advisories.value, coverage.value.value))
  }

  function DuplicateIssues(names: seq<string>): seq<Issue> {
    Map(names, (name: string) => SectionIssue(DuplicateSection, name, None))
  }

  function ReadSections(sections: map<string, seq<string>>, duplicates: seq<string>, expected: seq<Finding>,
                        norm: string -> string): ParseResult
  {
    var metadata := RequiredList(sections, MetadataSection, MissingRequiredSection, MalformedListSection);
    var previous := RequiredList(sections, PreviousSection, MissingRequiredSection, MalformedListSection);
    var blocking := RequiredList(sections, BlockingSection, MissingRequiredSection, MalformedListSection);
    var advisories := RequiredList(sections, AdvisorySection, MissingRequiredSection, MalformedListSection);
    var coverage := RequiredList(sections, CoverageSection, MissingSecurityCoverage, MalformedSecurityCoverage);
    var issues := DuplicateIssues(duplicates) + metadata.issues + previous.issues + blocking.issues +
                  advisories.issues + coverage.issues;
    if metadata.items.None? || previous.items.None? || blocking.items.None? || advisories.items.None? ||
       coverage.items.None? then Rejected(issues)
    else
      ReadLists(Lists(metadata.items.value, previous.items.value, blocking.items.value, advisories.items.value,
                      coverage.items.value), issues, expected, norm)
  }

  /** The text that is parsed: what comes before the raw sections, if there is any. */
  function CanonicalSummary(trimmed: string): string {
    var summary := Trim(BeforeRaw(trimmed));
    if summary == "" then trimmed else summary
  }

  function Parse(text: Option<string>, expected: seq<Finding>, norm: string -> string): ParseResult {
    if text.None? || Trim(text.value) == "" then Rejected([SectionIssue(MissingRequiredSection, MetadataSection, None)])
    else
      var scan := ScanLines(NoSections, Lines(CanonicalSummary(Trim(text.value))));
      ReadSections(scan.sections, scan.duplicates, expected, norm)
  }

  // ---- The loops of the parser ----

  lemma {:induction false} PreviousRowsSplit(st: KeyedRows<PreviousFinding>, a: seq<string>, b: seq<string>,
                                             expected: map<string, string>,
                                             read: string -> Option<PreviousFinding>)
    ensures PreviousRows(st, a + b, expected, read) ==
            PreviousRows(PreviousRows(st, a, expected, read), b, expected, read)
    decreases |a|
  {
    if a == [] {
      assert a + b == b;
    } else {
      assert (a + b)[1..] == a[1..] + b;
      PreviousRowsSplit(PreviousRow(st, a[0], expected, read), a[1..], b, expected, read);
    }
  }

  lemma OnePreviousRow(st: KeyedRows<PreviousFinding>, items: seq<string>, i: nat, expected: map<string, string>,
                       read: string -> Option<PreviousFinding>)
    requires i < |items|
    ensures PreviousRows(st, items[..i + 1], expected, read) ==
            PreviousRow(PreviousRows(st, items[..i], expected, read), items[i], expected, read)
  {
    assert items[..i + 1] == items[..i] + [items[i]];
    PreviousRowsSplit(st, items[..i], [items[i]], expected, read);
    var before := PreviousRows(st, items[..i], expected, read);
    assert PreviousRows(before, [items[i]], expected, read) ==
           PreviousRows(PreviousRow(before, items[i], expected, read), [], expected, read);
  }

  /** The rows that are read, before the check that none is missing. */
  method ParsePreviousRows(items: seq<string>, expected: map<string, string>, norm: string -> string)
    returns (value: seq<PreviousFinding>, seen: set<string>, issues: seq<Issue>)
    ensures KeyedRows(value, seen, issues) ==
            PreviousRows(KeyedRows([], {}, []), items, expected, PreviousReader(norm))
  {
    value, seen, issues := [], {}, [];
    for i := 0 to |items|
      invariant KeyedRows(value, seen, issues) ==
                PreviousRows(KeyedRows([], {}, []), items[..i], expected, PreviousReader(norm))
    {
      OnePreviousRow(KeyedRows([], {}, []), items, i, expected, PreviousReader(norm));
      var row := ReadPrevious(items[i], norm);
      if row.None? {
        issues := issues + [BadRow(MalformedPreviousFinding, PreviousSection, items[i], None)];
        continue;
      }
      var id := row.value.id;
      if id in seen {
        issues := issues + [BadRow(DuplicatePreviousFinding, PreviousSection, items[i], Some(id))];
        continue;
      }
      seen := seen + {id};
      if expected != map[] && !(id in expected && expected[id] == row.value.source) {
        var code := if id in expected then MalformedPreviousFinding else UnknownPreviousFinding;
        issues := issues + [BadRow(code, PreviousSection, items[i], Some(id))];
        continue;
      }
      value := value + [row.value];
    }
    assert items[..|items|] == items;
  }

  method ParseCanonicalPreviousFindingItems(items: seq<string>, previousFindings: seq<Finding>, norm: string -> string)
    returns (value: seq<PreviousFinding>, issues: seq<Issue>)
    ensures Rows(value, issues) == ReadPreviousItems(items, previousFindings, norm)
  {
    hide PreviousRows, ExpectedSources;
    var seen, scanned;
    value, seen, scanned := ParsePreviousRows(items, ExpectedSources(previousFindings), norm);
    issues := scanned;
    for i := 0 to |previousFindings|
      invariant issues == scanned + MissingPrevious(previousFindings[..i], seen)
    {
      assert Init(previousFindings[..i + 1]) == previousFindings[..i];
      if previousFindings[i].id !in seen {
        issues := issues + [SectionIssue(MissingPreviousFinding, PreviousSection, Some(previousFindings[i].id))];
      }
    }
    assert previousFindings[..|previousFindings|] == previousFindings;
  }

  lemma {:induction false} CoverageRowsSplit(st: KeyedRows<Coverage>, a: seq<string>, b: seq<string>,
                                             read: string -> Option<Coverage>)
    ensures CoverageRows(st, a + b, read) == CoverageRows(CoverageRows(st, a, read), b, read)
    decreases |a|
  {
    if a == [] {
      assert a + b == b;
    } else {
      assert (a + b)[1..] == a[1..] + b;
      CoverageRowsSplit(CoverageRow(st, a[0], read), a[1..], b, read);
    }
  }

  lemma OneCoverageRow(st: KeyedRows<Coverage>, items: seq<string>, i: nat, read: string -> Option<Coverage>)
    requires i < |items|
    ensures CoverageRows(st, items[..i + 1], read) ==
            CoverageRow(CoverageRows(st, items[..i], read), items[i], read)
  {
    assert items[..i + 1] == items[..i] + [items[i]];
    CoverageRowsSplit(st, items[..i], [items[i]], read);
    var before := CoverageRows(st, items[..i], read);
    assert CoverageRows(before, [items[i]], read) == CoverageRows(CoverageRow(before, items[i], read), [], read);
  }

  method ParseCoverageRows(items: seq<string>, norm: string -> string)
    returns (coverage: seq<Coverage>, seenAreas: set<string>, issues: seq<Issue>)
    ensures KeyedRows(coverage, seenAreas, issues) ==
            CoverageRows(KeyedRows([], {}, []), items, CoverageReader(norm))
  {
    coverage, seenAreas, issues := [], {}, [];
    for i := 0 to |items|
      invariant KeyedRows(coverage, seenAreas, issues) ==
                CoverageRows(KeyedRows([], {}, []), items[..i], CoverageReader(norm))
    {
      hide CoverageRows;
      OneCoverageRow(KeyedRows([], {}, []), items, i, CoverageReader(norm));
      var row := ReadCoverage(items[i], norm);
      if row.None? {
        issues := issues + [BadRow(MalformedSecurityCoverage, CoverageSection, items[i], None)];
        continue;
      }
      var area := row.value.area;
      if area in seenAreas {
        issues := issues + [BadRow(DuplicateSecurityCoverageArea, CoverageSection, items[i], Some(area))];
        continue;
      }
      seenAreas := seenAreas + {area};
      coverage := coverage + [row.value];
    }
    assert items[..|items|] == items;
  }

  method ParseSecurityCoverageItems(items: seq<string>, norm: string -> string) returns (result: CoverageResult)
    ensures result == ReadCoverageItems(items, norm)
  {
    hide CoverageRows;
    var coverage, seenAreas, scanned := ParseCoverageRows(items, norm);
    var areas := RequiredAreas;
    var issues := scanned;
    for i := 0 to |areas|
      invariant issues == scanned + MissingAreas(areas[..i], seenAreas)
    {
      assert Init(areas[..i + 1]) == areas[..i];
      if areas[i] !in seenAreas {
        issues := issues + [SectionIssue(MissingSecurityCoverageArea, CoverageSection, Some(areas[i]))];
      }
    }
    assert areas[..|areas|] == areas;
    return CoverageResult(if issues == [] then Some(coverage) else None, issues);
  }
}
