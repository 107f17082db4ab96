/** The printed document as text: its lines, its sections, and what the raw part cannot touch. */
module ReviewDocument {
  import opened Collections
  import opened ReviewText
  import opened ReviewSections
  import opened ReviewFindings
  import opened ReviewRows
  import opened ReviewComments
  import opened ReviewRoundTrip

  // ---- Joined lines ----

  lemma {:induction false} JoinAppend(a: seq<string>, b: seq<string>)
    requires a != [] && b != []
    ensures Join(a + b) == Join(a) + "\n" + Join(b)
  {
    if |a| == 1 {
      assert (a + b)[1..] == b;
    } else {
      assert (a + b)[1..] == a[1..] + b;
      JoinAppend(a[1..], b);
    }
  }

  lemma {:induction false} JoinEnds(lines: seq<string>)
    requires lines != [] && lines[0] != "" && lines[|lines| - 1] != ""
    ensures var s := Join(lines); var last := lines[|lines| - 1];
      s != "" && s[0] == lines[0][0] && s[|s| - 1] == last[|last| - 1]
  {
    if |lines| > 1 {
      var init, last := lines[..|lines| - 1], lines[|lines| - 1];
      assert lines == init + [last];
      JoinAppend(init, [last]);
      JoinStart(lines);
    }
  }

  lemma JoinStart(lines: seq<string>)
    requires lines != [] && lines[0] != ""
    ensures Join(lines) != "" && Join(lines)[0] == lines[0][0]
  {
  }

  /** A document: visible at both ends, one line per line, and no raw heading among them. */
  ghost predicate DocumentText(lines: seq<string>) {
    && lines != []
    && Visible(lines[0]) && Visible(lines[|lines| - 1])
    && PlainLines(lines)
    && NoRawHeading(lines)
  }

  /** The document, a blank line, the raw heading and the raw lines. */
  function WithRaw(lines: seq<string>, rawLines: seq<string>): string {
    Join(lines + [""] + [RawHeading] + rawLines)
  }

  function RawTail(rawLines: seq<string>): string {
    if rawLines == [] then "" else "\n" + Join(rawLines)
  }

  lemma RawSplit(lines: seq<string>, rawLines: seq<string>)
    requires lines != []
    ensures WithRaw(lines, rawLines) == Join(lines + [""]) + ("\n" + RawHeading) + RawTail(rawLines)
  {
    var head := lines + [""] + [RawHeading];
    JoinAppend(lines + [""], [RawHeading]);
    if rawLines == [] {
      assert head + rawLines == head;
    } else {
      JoinAppend(head, rawLines);
    }
  }

  lemma BlankLast(lines: seq<string>)
    requires lines != []
    ensures Join(lines + [""]) == Join(lines) + "\n"
  {
    JoinAppend(lines, [""]);
  }

  lemma TrimNewline(s: string)
    requires Visible(s)
    ensures Trim(s + "\n") == s
  {
    assert (s + "\n")[..|s|] == s;
    assert SkipWhite(s + "\n") == s + "\n";
    assert TrimEnd(s) == s;
  }

  lemma TrimTail(body: string, whole: string) returns (tail: string)
    requires Visible(body)
    ensures Trim(body + whole) == body + tail
    ensures |tail| <= |whole| && tail == whole[..|tail|]
  {
    assert SkipWhite(body + whole) == body + whole;
    TrimEndStops(body, whole);
    var n :| 0 <= n <= |whole| && TrimEnd(body + whole) == body + whole[..n];
    tail := whole[..n];
  }

  lemma HeadVisible(lines: seq<string>)
    requires DocumentText(lines)
    ensures Visible(Join(lines + [""]) + ("\n" + RawHeading))
  {
    var body := Join(lines + [""]) + ("\n" + RawHeading);
    JoinStart(lines + [""]);
    assert body[|body| - 1] == RawHeading[|RawHeading| - 1] == 'w';
    assert body[0] == Join(lines + [""])[0] == lines[0][0];
  }

  /** Trimming the whole text takes at most a part of the raw tail. */
  lemma TrimRaw(lines: seq<string>, rawLines: seq<string>) returns (tail: string)
    requires DocumentText(lines)
    ensures Trim(WithRaw(lines, rawLines)) == Join(lines + [""]) + ("\n" + RawHeading + tail)
    ensures tail == "" || tail[0] == '\n'
  {
    var body := Join(lines + [""]) + ("\n" + RawHeading);
    RawSplit(lines, rawLines);
    HeadVisible(lines);
    tail := TrimTail(body, RawTail(rawLines));
    assert body + tail == Join(lines + [""]) + ("\n" + RawHeading + tail);
  }

  lemma CutsAtHeading(tail: string)
    requires tail == "" || tail[0] == '\n'
    ensures CutsHere("\n" + RawHeading + tail)
  {
    var s := "\n" + RawHeading + tail;
    assert s[..|RawHeading| + 1] == "\n" + RawHeading;
    assert |s| > |RawHeading| + 1 ==> s[|RawHeading| + 1] == tail[0];
  }

  lemma BlankStaysPlain(lines: seq<string>)
    requires NoRawHeading(lines)
    ensures NoRawHeading(lines + [""])
  {
    assert !StartsWith("", RawHeading);
  }

  /** The raw part, whatever it is, never changes what is parsed. */
  lemma RawNeverInterferes(lines: seq<string>, rawLines: seq<string>)
    requires DocumentText(lines)
    ensures Trim(WithRaw(lines, rawLines)) != ""
    ensures CanonicalSummary(Trim(WithRaw(lines, rawLines))) == Join(lines)
    ensures Lines(Join(lines)) == lines
  {
    var tail := TrimRaw(lines, rawLines);
    CutsAtHeading(tail);
    BlankStaysPlain(lines);
    BeforeRawOfJoin(lines + [""], "\n" + RawHeading + tail);
    BlankLast(lines);
    JoinEnds(lines);
    TrimNewline(Join(lines));
    LinesOfJoin(lines);
  }

  // ---- Sections ----

  ghost predicate NewBlocks(st: Scan, blocks: seq<Block>) {
    && (forall i :: 0 <= i < |blocks| ==>
          blocks[i].name != "" && Trimmed(blocks[i].name) && PlainBody(blocks[i].body) &&
          blocks[i].name !in st.sections)
    && forall i, j :: 0 <= i < j < |blocks| ==> blocks[i].name != blocks[j].name
  }

  /** Each block of a document becomes one section. */
  lemma {:induction false} ScanDocument(st: Scan, blocks: seq<Block>)
    requires NewBlocks(st, blocks)
    ensures var r := ScanLines(st, DocumentLines(blocks));
      && r.duplicates == st.duplicates
      && (forall n :: n in st.sections ==> n in r.sections && r.sections[n] == st.sections[n])
      && (forall i :: 0 <= i < |blocks| ==> blocks[i].name in r.sections && r.sections[blocks[i].name] == blocks[i].body)
    decreases |blocks|
  {
    if blocks != [] {
      hide BlockLines, PlainBody, ScanLines;
      var b := blocks[0];
      var next := Scan(st.sections[b.name := b.body], st.duplicates, Some(b.name));
      ScanBlock(st, b);
      ScanConcat(st, BlockLines(b), DocumentLines(blocks[1..]));
      ScanDocument(next, blocks[1..]);
      assert forall i :: 1 <= i < |blocks| ==> blocks[i] == blocks[1..][i - 1];
    }
  }

  // ---- The canonical document ----

  /** The canonical blocks without the blank line before the raw heading. */
  function CoreBlocks(lists: Lists): (blocks: seq<Block>)
    ensures |blocks| == 5
  {
    CanonicalBlocks(lists)[4 := Block(CoverageSection, ListRows(lists.coverage))]
  }

  ghost predicate RowLists(lists: Lists) {
    && RowItems(lists.metadata) && RowItems(lists.previous) && RowItems(lists.blocking)
    && RowItems(lists.advisories) && RowItems(lists.coverage)
  }

  lemma {:induction false} LastBlank(blocks: seq<Block>, name: string, body: seq<string>)
    ensures DocumentLines(blocks + [Block(name, body + [""])]) == DocumentLines(blocks + [Block(name, body)]) + [""]
  {
    if blocks == [] {
      var b, longer := Block(name, body), Block(name, body + [""]);
      assert DocumentLines([b]) == BlockLines(b) + DocumentLines([b][1..]);
      assert DocumentLines([longer]) == BlockLines(longer) + DocumentLines([longer][1..]);
    } else {
      LastBlank(blocks[1..], name, body);
      assert (blocks + [Block(name, body)])[1..] == blocks[1..] + [Block(name, body)];
      assert (blocks + [Block(name, body + [""])])[1..] == blocks[1..] + [Block(name, body + [""])];
    }
  }

  lemma DocumentIsCore(lists: Lists)
    ensures DocumentLines(CanonicalBlocks(lists)) == DocumentLines(CoreBlocks(lists)) + [""]
  {
    var blocks := CanonicalBlocks(lists);
    LastBlank(blocks[..4], CoverageSection, ListRows(lists.coverage));
    assert blocks == blocks[..4] + [blocks[4]];
    assert CoreBlocks(lists) == blocks[..4] + [CoreBlocks(lists)[4]];
  }

  lemma PrintIsWithRaw(c: Comments, norm: string -> string, rawLines: seq<string>)
    requires c.iteration >= 0
    ensures Print(c, norm, rawLines) == WithRaw(DocumentLines(CoreBlocks(ListsOf(c, norm))), rawLines)
  {
    DocumentIsCore(ListsOf(c, norm));
  }

  /** A line that is plain and starts neither a section nor the raw part. */
  ghost predicate BodyLine(line: string) {
    PlainLine(line) && !StartsWith(line, Heading) && !StartsWith(line, RawHeading)
  }

  ghost predicate BodyLines(body: seq<string>) {
    forall i :: 0 <= i < |body| ==> BodyLine(body[i])
  }

  ghost predicate PlainHeading(line: string) {
    PlainLine(line) && !StartsWith(line, RawHeading)
  }

  ghost predicate PlainBlocks(blocks: seq<Block>) {
    forall i :: 0 <= i < |blocks| ==> PlainHeading(Heading + blocks[i].name) && BodyLines(blocks[i].body)
  }

  lemma PlainConcat(a: seq<string>, b: seq<string>)
    requires PlainLines(a) && NoRawHeading(a) && PlainLines(b) && NoRawHeading(b)
    ensures PlainLines(a + b) && NoRawHeading(a + b)
  {
  }

  lemma PlainBlockLines(b: Block)
    requires PlainHeading(Heading + b.name) && BodyLines(b.body)
    ensures PlainLines(BlockLines(b)) && NoRawHeading(BlockLines(b))
  {
    forall i | 0 <= i < |BlockLines(b)|
      ensures PlainHeading(BlockLines(b)[i])
    {
      assert i > 0 ==> BodyLine(b.body[i - 1]);
    }
  }

  lemma {:induction false} PlainDocument(blocks: seq<Block>)
    requires PlainBlocks(blocks)
    ensures PlainLines(DocumentLines(blocks)) && NoRawHeading(DocumentLines(blocks))
  {
    if blocks != [] {
      PlainBlockLines(blocks[0]);
      assert forall i :: 0 <= i < |blocks| - 1 ==> blocks[1..][i] == blocks[i + 1];
      PlainDocument(blocks[1..]);
      PlainConcat(BlockLines(blocks[0]), DocumentLines(blocks[1..]));
    }
  }

  lemma RowIsBodyLine(item: string)
    requires (Visible(item) && '\n' !in item) || item == "none"
    ensures BodyLine(BulletRow(item)) && Visible(BulletRow(item))
  {
    var row := BulletRow(item);
    assert row[0] == '-' && row[|row| - 1] == item[|item| - 1];
    assert |row| >= 3 ==> row[..3][0] == '-';
    assert |row| >= |RawHeading| ==> row[..|RawHeading|][0] == '-';
    assert '\n' !in Bullet;
  }

  lemma RowsAreBodyLines(items: seq<string>)
    requires RowItems(items)
    ensures BodyLines(ListRows(items)) && BodyLines(SectionRows(items))
    ensures ListRows(items) != [] && Visible(ListRows(items)[|ListRows(items)| - 1])
    ensures PlainItems(items)
  {
    var rows := ListRows(items);
    forall i | 0 <= i < |rows|
      ensures BodyLine(rows[i]) && Visible(rows[i])
    {
      if items == [] {
        RowIsBodyLine("none");
      } else {
        assert RowItem(items[i]);
        RowIsBodyLine(items[i]);
      }
    }
    assert BodyLine("");
    forall i | 0 <= i < |items|
      ensures PlainItem(items[i])
    {
      assert RowItem(items[i]);
    }
  }

  /** Letters and spaces, starting with a letter other than the raw heading's. */
  predicate SectionName(name: string) {
    && name != "" && 'A' <= name[0] <= 'Z' && name[0] != 'R' && 'a' <= name[|name| - 1] <= 'z'
    && forall i :: 0 <= i < |name| ==> name[i] != '\n'
  }

  lemma SectionHeadingPlain(name: string)
    requires SectionName(name)
    ensures PlainHeading(Heading + name) && Visible(name)
  {
    var line := Heading + name;
    assert line[3] == name[0] && RawHeading[3] == 'R';
    assert |line| >= |RawHeading| ==> line[..|RawHeading|][3] == line[3];
    assert '\n' !in Heading && '\n' !in name;
  }

  lemma SectionNames()
    ensures SectionName(MetadataSection) && SectionName(PreviousSection) && SectionName(BlockingSection)
    ensures SectionName(AdvisorySection) && SectionName(CoverageSection)
  {
  }

  lemma SectionNamesDiffer()
    ensures |MetadataSection| == 20 && |PreviousSection| == 17 && |BlockingSection| == 17
    ensures |AdvisorySection| == 10 && |CoverageSection| == 17
    ensures PreviousSection[0] == 'P' && BlockingSection[0] == 'B' && CoverageSection[0] == 'S'
  {
  }

  lemma {:induction false} DocumentEnds(blocks: seq<Block>)
    requires blocks != [] && blocks[|blocks| - 1].body != []
    ensures DocumentLines(blocks) != []
    ensures DocumentLines(blocks)[0] == Heading + blocks[0].name
    ensures var last := blocks[|blocks| - 1].body;
      DocumentLines(blocks)[|DocumentLines(blocks)| - 1] == last[|last| - 1]
  {
    if |blocks| == 1 {
      assert DocumentLines(blocks) == BlockLines(blocks[0]) + DocumentLines(blocks[1..]);
    } else {
      DocumentEnds(blocks[1..]);
    }
  }

  /** Section names that differ in length or first letter. */
  predicate Apart(a: string, b: string) {
    |a| != |b| || (a != "" && b != "" && a[0] != b[0])
  }

  lemma ApartNames(lists: Lists)
    ensures forall i, j :: 0 <= i < j < 5 ==> Apart(CoreBlocks(lists)[i].name, CoreBlocks(lists)[j].name)
  {
    SectionNamesDiffer();
  }

  lemma CoreNames(lists: Lists, i: nat)
    requires i < 5
    ensures SectionName(CoreBlocks(lists)[i].name)
  {
    SectionNames();
  }

  lemma CoreIsNew(lists: Lists)
    requires forall i :: 0 <= i < 5 ==> BodyLines(CoreBlocks(lists)[i].body)
    ensures NewBlocks(NoSections, CoreBlocks(lists)) && PlainBlocks(CoreBlocks(lists))
  {
    ApartNames(lists);
    forall i | 0 <= i < 5
      ensures SectionName(CoreBlocks(lists)[i].name)
    {
      CoreNames(lists, i);
    }
    BlocksAreNew(CoreBlocks(lists));
  }

  lemma BlocksAreNew(blocks: seq<Block>)
    requires forall i :: 0 <= i < |blocks| ==> BodyLines(blocks[i].body) && SectionName(blocks[i].name)
    requires forall i, j :: 0 <= i < j < |blocks| ==> Apart(blocks[i].name, blocks[j].name)
    ensures NewBlocks(NoSections, blocks) && PlainBlocks(blocks)
  {
    forall i | 0 <= i < |blocks|
      ensures blocks[i].name != "" && Trimmed(blocks[i].name) && PlainBody(blocks[i].body)
      ensures PlainHeading(Heading + blocks[i].name)
    {
      SectionHeadingPlain(blocks[i].name);
      BodyIsPlain(blocks[i].body);
    }
  }

  lemma BodyIsPlain(body: seq<string>)
    requires BodyLines(body)
    ensures PlainBody(body)
  {
    forall i | 0 <= i < |body|
      ensures !StartsWith(body[i], Heading)
    {
      assert BodyLine(body[i]);
    }
  }

  lemma ItemsReadBack(c: Comments, norm: string -> string)
    requires Normalizes(norm) && Printable(c, norm)
    ensures RowLists(ListsOf(c, norm))
  {
    MetadataReadBack(c);
    PreviousReadsItems(c, norm);
    BlockingReadBack(c, norm);
    AdvisoriesReadBack(c, norm);
    CoverageReadBack(c, norm);
  }

  /** The items that the i-th canonical section lists. */
  function CoreItems(lists: Lists, i: nat): seq<string>
    requires i < 5
  {
    [lists.metadata, lists.previous, lists.blocking, lists.advisories, lists.coverage][i]
  }

  lemma CoreBody(lists: Lists, i: nat)
    requires i < 5
    ensures CoreBlocks(lists)[i].body ==
            if i == 4 then ListRows(CoreItems(lists, i)) else SectionRows(CoreItems(lists, i))
  {
    hide ListRows, SectionRows;
  }

  lemma CoreBodies(lists: Lists)
    requires RowLists(lists)
    ensures forall i :: 0 <= i < 5 ==> BodyLines(CoreBlocks(lists)[i].body)
    ensures CoreBlocks(lists)[4].body == ListRows(lists.coverage)
  {
    hide CoreBlocks, ListRows, SectionRows, BodyLines, RowItems;
    forall i | 0 <= i < 5
      ensures BodyLines(CoreBlocks(lists)[i].body)
    {
      CoreBody(lists, i);
      RowsAreBodyLines(CoreItems(lists, i));
    }
    CoreBody(lists, 4);
  }

  lemma CoreIsDocument(lists: Lists)
    requires RowLists(lists)
    ensures DocumentText(DocumentLines(CoreBlocks(lists)))
    ensures NewBlocks(NoSections, CoreBlocks(lists))
  {
    var blocks := CoreBlocks(lists);
    CoreBodies(lists);
    CoreIsNew(lists);
    RowsAreBodyLines(lists.coverage);
    DocumentShape(blocks);
  }

  lemma DocumentShape(blocks: seq<Block>)
    requires PlainBlocks(blocks)
    requires blocks != [] && blocks[0].name == MetadataSection
    requires var last := blocks[|blocks| - 1].body; last != [] && Visible(last[|last| - 1])
    ensures DocumentText(DocumentLines(blocks))
  {
    PlainDocument(blocks);
    DocumentEnds(blocks);
    SectionNames();
    var first := Heading + blocks[0].name;
    assert first[0] == '#' && first[|first| - 1] == blocks[0].name[|blocks[0].name| - 1];
  }

  ghost predicate HasSection(sections: map<string, seq<string>>, b: Block) {
    b.name in sections && sections[b.name] == b.body
  }

  /** The sections are those of the document. */
  ghost predicate SectionsOf(sections: map<string, seq<string>>, lists: Lists) {
    forall i :: 0 <= i < 5 ==> HasSection(sections, CoreBlocks(lists)[i])
  }

  lemma SectionAt(sections: map<string, seq<string>>, lists: Lists, i: nat)
    requires SectionsOf(sections, lists) && i < 5
    ensures CoreBlocks(lists)[i].name in sections
    ensures sections[CoreBlocks(lists)[i].name] == CoreBlocks(lists)[i].body
  {
  }

  /** A required section reads as the list. */
  ghost predicate Listed(sections: map<string, seq<string>>, name: string, items: seq<string>) {
    name in sections && ListItems(sections[name]) == Some(items)
  }

  /** Every required section reads as its list. */
  ghost predicate AllListed(sections: map<string, seq<string>>, lists: Lists) {
    && Listed(sections, MetadataSection, lists.metadata) && Listed(sections, PreviousSection, lists.previous)
    && Listed(sections, BlockingSection, lists.blocking) && Listed(sections, AdvisorySection, lists.advisories)
    && Listed(sections, CoverageSection, lists.coverage)
  }

  lemma ListedSectionsRead(sections: map<string, seq<string>>, lists: Lists, expected: seq<Finding>,
                           norm: string -> string)
    requires AllListed(sections, lists)
    ensures ReadSections(sections, [], expected, norm) == ReadLists(lists, [], expected, norm)
  {
  }

  lemma SectionIsListed(lists: Lists, sections: map<string, seq<string>>, i: nat)
    requires RowLists(lists) && SectionsOf(sections, lists) && i < 5
    ensures Listed(sections, CoreBlocks(lists)[i].name, CoreItems(lists, i))
  {
    hide CoreBlocks, ListRows, SectionRows;
    SectionAt(sections, lists, i);
    CoreBody(lists, i);
    RowsAreBodyLines(CoreItems(lists, i));
    ListItemsOfRows(CoreItems(lists, i));
  }

  lemma SectionsAreListed(lists: Lists, sections: map<string, seq<string>>)
    requires RowLists(lists) && SectionsOf(sections, lists)
    ensures AllListed(sections, lists)
  {
    hide Listed, SectionsOf, RowLists, ListRows, SectionRows;
    SectionIsListed(lists, sections, 0);
    SectionIsListed(lists, sections, 1);
    SectionIsListed(lists, sections, 2);
    SectionIsListed(lists, sections, 3);
    SectionIsListed(lists, sections, 4);
  }

  lemma DocumentReadsBack(lists: Lists, norm: string -> string, expected: seq<Finding>, rawLines: seq<string>)
    requires RowLists(lists)
    ensures Parse(Some(WithRaw(DocumentLines(CoreBlocks(lists)), rawLines)), expected, norm) ==
            ReadLists(lists, [], expected, norm)
  {
    var lines := DocumentLines(CoreBlocks(lists));
    CoreIsDocument(lists);
    RawNeverInterferes(lines, rawLines);
    ScanDocument(NoSections, CoreBlocks(lists));
    var sections := ScanLines(NoSections, lines).sections;
    assert SectionsOf(sections, lists);
    SectionsAreListed(lists, sections);
    ListedSectionsRead(sections, lists, expected, norm);
  }

  /**
    Parsing a printed review gives the review back, with its texts normalized, for any raw lines after
    the canonical part: the raw sections never influence the result.
   */
  lemma ParsePrintRoundTrip(c: Comments, norm: string -> string, expected: seq<Finding>, rawLines: seq<string>)
    requires Normalizes(norm) && Printable(c, norm) && Reports(c, ExpectedSources(expected))
    ensures Parse(Some(Print(c, norm, rawLines)), expected, norm) == Accepted(Canonical(c, norm))
  {
    PrintIsWithRaw(c, norm, rawLines);
    ItemsReadBack(c, norm);
    DocumentReadsBack(ListsOf(c, norm), norm, expected, rawLines);
    ListsReadBack(c, norm, expected);
  }

  /** Two prints of one review that differ only in the raw reviewer outputs parse alike. */
  lemma RawOutputsNeverMatter(c: Comments, norm: string -> string, expected: seq<Finding>, redact: string -> string,
                              code1: string, audit1: string, raws1: seq<RawOutput>, code2: string, audit2: string,
                              raws2: seq<RawOutput>)
    requires Normalizes(norm) && Printable(c, norm) && Reports(c, ExpectedSources(expected))
    ensures Parse(Some(Print(c, norm, RawLines(code1, audit1, raws1, redact))), expected, norm) ==
            Parse(Some(Print(c, norm, RawLines(code2, audit2, raws2, redact))), expected, norm)
  {
    ParsePrintRoundTrip(c, norm, expected, RawLines(code1, audit1, raws1, redact));
    ParsePrintRoundTrip(c, norm, expected, RawLines(code2, audit2, raws2, redact));
  }

  // ---- The raw part ----

  ghost predicate ShowsRaw(line: string, output: string, nothing: string, redact: string -> string) {
    line == if redact(Trim(output)) == "" then nothing else redact(Trim(output))
  }

  /** From the i-th line on the lines show the reviewer's output below a heading of the role. */
  ghost predicate ShowsAt(lines: seq<string>, i: nat, raw: RawOutput, redact: string -> string)
    requires i + 2 < |lines|
  {
    && lines[i] == "" && lines[i + 1] == "## Raw Specialized Review: " + raw.role
    && ShowsRaw(lines[i + 2], raw.output, "No " + raw.role + " reviewer output.", redact)
  }

  lemma ShowsFirst(raws: seq<RawOutput>, redact: string -> string)
    requires raws != []
    ensures |RawSpecializedLines(raws, redact)| == 3 * |raws|
    ensures ShowsAt(RawSpecializedLines(raws, redact), 0, raws[0], redact)
  {
    RawSpecializedLength(raws, redact);
  }

  lemma ShowsLater(raws: seq<RawOutput>, redact: string -> string, i: nat, raw: RawOutput)
    requires raws != [] && i + 2 < |RawSpecializedLines(raws[1..], redact)|
    requires ShowsAt(RawSpecializedLines(raws[1..], redact), i, raw, redact)
    ensures i + 5 < |RawSpecializedLines(raws, redact)| && ShowsAt(RawSpecializedLines(raws, redact), i + 3, raw, redact)
  {
    hide ShowsRaw;
    var lines, rest := RawSpecializedLines(raws, redact), RawSpecializedLines(raws[1..], redact);
    assert lines[3..] == rest;
    assert lines[i + 3] == rest[i] && lines[i + 4] == rest[i + 1] && lines[i + 5] == rest[i + 2];
  }

  /** The raw part shows each specialized reviewer's output below a heading of its role, in order. */
  lemma {:induction false} RawSpecializedAt(raws: seq<RawOutput>, redact: string -> string, k: nat)
    requires k < |raws|
    ensures |RawSpecializedLines(raws, redact)| == 3 * |raws|
    ensures ShowsAt(RawSpecializedLines(raws, redact), 3 * k, raws[k], redact)
  {
    hide RawSpecializedLines, ShowsAt;
    RawSpecializedLength(raws, redact);
    if k > 0 {
      RawSpecializedAt(raws[1..], redact, k - 1);
      ShowsLater(raws, redact, 3 * (k - 1), raws[k]);
    } else {
      ShowsFirst(raws, redact);
    }
  }

  lemma {:induction false} RawSpecializedLength(raws: seq<RawOutput>, redact: string -> string)
    ensures |RawSpecializedLines(raws, redact)| == 3 * |raws|
  {
    if raws != [] {
      RawSpecializedLength(raws[1..], redact);
    }
  }

  /** Before that it shows the code review's and the security audit's. */
  lemma RawLinesShow(rawCodeReview: string, rawSecurityAudit: string, raws: seq<RawOutput>, redact: string -> string)
    ensures var lines := RawLines(rawCodeReview, rawSecurityAudit, raws, redact);
      && |lines| == 4 + 3 * |raws| && lines[4..] == RawSpecializedLines(raws, redact)
      && ShowsRaw(lines[0], rawCodeReview, "No code review output.", redact) && lines[1] == ""
      && lines[2] == "## Raw Security Audit"
      && ShowsRaw(lines[3], rawSecurityAudit, "No security audit output.", redact)
  {
    RawSpecializedLength(raws, redact);
  }
}
