/**
  The two scanners for weak or discarded audit findings, one that strips their sections and one that
  extracts them (packages/shared/src/auditCardDecision.ts:131-227).

  Lines arrive with their heading recognized, and what a bullet or a body says is a Wording.
 */
module AuditSections {
  import opened Collections

  datatype Kind = Weak | Discarded

  /** weak: the title announces weak or discarded findings; kind is what it then stands for. */
  datatype Heading = Heading(level: int, weak: bool, kind: Kind)

  datatype Line = Line(text: string, heading: Option<Heading>)

  datatype Role = Kept | Opening | Collected

  // ---- The role of each line ----

  /** The level of the section being left out, before and after a line's heading closed it. */
  function Closed(section: Option<int>, line: Line): Option<int> {
    if line.heading.Some? && section.Some? && line.heading.value.level <= section.value then None else section
  }

  predicate Opens(section: Option<int>, line: Line) {
    Closed(section, line).None? && line.heading.Some? && line.heading.value.weak
  }

  function NextSection(section: Option<int>, line: Line): Option<int> {
    if Opens(section, line) then Some(line.heading.value.level) else Closed(section, line)
  }

  function RoleOf(section: Option<int>, line: Line): Role {
    if Opens(section, line) then Opening
    else if Closed(section, line).Some? then Collected
    else Kept
  }

  /** The section that is open after the first n lines. */
  function SectionAt(lines: seq<Line>, n: nat): Option<int>
    requires n <= |lines|
  {
    if n == 0 then None else NextSection(SectionAt(lines, n - 1), lines[n - 1])
  }

  function RoleAt(lines: seq<Line>, i: nat): Role
    requires i < |lines|
  {
    RoleOf(SectionAt(lines, i), lines[i])
  }

  // ---- What the roles mean, without the scan ----

  /** No heading between the two lines, the second included, is at the given level or above it. */
  ghost predicate Unclosed(lines: seq<Line>, from: nat, to: nat, level: int)
    requires from <= to < |lines|
  {
    forall k :: from < k <= to ==> lines[k].heading.Some? ==> lines[k].heading.value.level > level
  }

  /** Line j opened a section that still covers line i. */
  ghost predicate Covers(lines: seq<Line>, j: nat, i: nat)
    requires j < i < |lines|
  {
    RoleAt(lines, j) == Opening && lines[j].heading.Some? && Unclosed(lines, j, i, lines[j].heading.value.level)
  }

  ghost predicate Covered(lines: seq<Line>, i: nat)
    requires i < |lines|
  {
    exists j :: 0 <= j < i && Covers(lines, j, i)
  }

  lemma {:induction false} OpenSectionHasOpener(lines: seq<Line>, n: nat) returns (j: nat)
    requires n <= |lines| && SectionAt(lines, n).Some?
    ensures j < n && RoleAt(lines, j) == Opening
    ensures lines[j].heading.Some? && lines[j].heading.value.level == SectionAt(lines, n).value
    ensures Unclosed(lines, j, n - 1, SectionAt(lines, n).value)
  {
    if RoleAt(lines, n - 1) == Opening {
      j := n - 1;
    } else {
      j := OpenSectionHasOpener(lines, n - 1);
    }
  }

  lemma {:induction false} UnclosedStaysOpen(lines: seq<Line>, j: nat, n: nat)
    requires j < n <= |lines|
    requires RoleAt(lines, j) == Opening && lines[j].heading.Some?
    requires Unclosed(lines, j, n - 1, lines[j].heading.value.level)
    ensures SectionAt(lines, n) == Some(lines[j].heading.value.level)
    decreases n
  {
    if n - 1 > j {
      UnclosedStaysOpen(lines, j, n - 1);
    }
  }

  /** A line is collected exactly when a section opened before it still covers it. */
  lemma CollectedIffCovered(lines: seq<Line>, i: nat)
    requires i < |lines|
    ensures RoleAt(lines, i) == Collected <==> Covered(lines, i)
  {
    if RoleAt(lines, i) == Collected {
      var j := OpenSectionHasOpener(lines, i);
      assert Covers(lines, j, i);
    }
    if j :| 0 <= j < i && Covers(lines, j, i) {
      UnclosedStaysOpen(lines, j, i);
    }
  }

  /** A line opens a section exactly when it is such a heading and no section covers it. */
  lemma OpeningIffUncoveredHeading(lines: seq<Line>, i: nat)
    requires i < |lines|
    ensures RoleAt(lines, i) == Opening <==>
            lines[i].heading.Some? && lines[i].heading.value.weak && !Covered(lines, i)
  {
    CollectedIffCovered(lines, i);
  }

  // ---- Stripping ----

  /** The lines of a role among the first n, in order. */
  function Select(lines: seq<Line>, role: Role, n: nat): seq<Line>
    requires n <= |lines|
  {
    if n == 0 then []
    else Select(lines, role, n - 1) + if RoleAt(lines, n - 1) == role then [lines[n - 1]] else []
  }

  method StripSections(lines: seq<Line>) returns (kept: seq<Line>)
    ensures kept == Select(lines, Kept, |lines|)
  {
    kept := [];
    var skipUntilHeadingLevel: Option<int> := None;
    for i := 0 to |lines|
      invariant skipUntilHeadingLevel == SectionAt(lines, i)
      invariant kept == Select(lines, Kept, i)
    {
      var line := lines[i];
      if line.heading.Some? {
        var level := line.heading.value.level;
        if skipUntilHeadingLevel.Some? && level <= skipUntilHeadingLevel.value {
          skipUntilHeadingLevel := None;
        }
        if skipUntilHeadingLevel.None? && line.heading.value.weak {
          skipUntilHeadingLevel := Some(level);
          continue;
        }
      }
      if skipUntilHeadingLevel.Some? {
        continue;
      }
      kept := kept + [line];
    }
  }

  predicate WeakHeading(line: Line) {
    line.heading.Some? && line.heading.value.weak
  }

  lemma {:induction false} SelectedHaveRole(lines: seq<Line>, role: Role, n: nat, line: Line)
    requires n <= |lines| && line in Select(lines, role, n)
    ensures exists i :: 0 <= i < n && lines[i] == line && RoleAt(lines, i) == role
  {
    if line in Select(lines, role, n - 1) {
      SelectedHaveRole(lines, role, n - 1, line);
      var i :| 0 <= i < n - 1 && lines[i] == line && RoleAt(lines, i) == role;
      assert lines[i] == line && RoleAt(lines, i) == role;
    } else {
      assert lines[n - 1] == line && RoleAt(lines, n - 1) == role;
    }
  }

  /** No kept line is a heading of weak or discarded findings. */
  lemma KeptHasNoWeakHeading(lines: seq<Line>)
    ensures forall line :: line in Select(lines, Kept, |lines|) ==> !WeakHeading(line)
  {
    forall line | line in Select(lines, Kept, |lines|)
      ensures !WeakHeading(line)
    {
      SelectedHaveRole(lines, Kept, |lines|, line);
      var i :| 0 <= i < |lines| && lines[i] == line && RoleAt(lines, i) == Kept;
    }
  }

  lemma {:induction false} AllKept(lines: seq<Line>, n: nat)
    requires n <= |lines|
    requires forall line :: line in lines ==> !WeakHeading(line)
    ensures SectionAt(lines, n) == None
    ensures Select(lines, Kept, n) == lines[..n] && Select(lines, Opening, n) == []
    ensures Select(lines, Collected, n) == []
  {
    if n > 0 {
      assert lines[n - 1] in lines;
      AllKept(lines, n - 1);
      assert lines[..n] == lines[..n - 1] + [lines[n - 1]];
    }
  }

  /** Stripping kept lines again changes nothing, and leaves nothing to extract. */
  lemma StripIsIdempotent(lines: seq<Line>)
    ensures var kept := Select(lines, Kept, |lines|);
      Select(kept, Kept, |kept|) == kept && Select(kept, Collected, |kept|) == [] && Select(kept, Opening, |kept|) == []
  {
    var kept := Select(lines, Kept, |lines|);
    KeptHasNoWeakHeading(lines);
    AllKept(kept, |kept|);
  }

  /** The i-th line is in the part of its role, at the place its predecessors of that role leave it. */
  lemma {:induction false} SelectedAtRank(lines: seq<Line>, n: nat, i: nat)
    requires i < n <= |lines|
    ensures var role := RoleAt(lines, i); var rank := |Select(lines, role, i)|;
      rank < |Select(lines, role, n)| && Select(lines, role, n)[rank] == lines[i]
    decreases n
  {
    if i < n - 1 {
      SelectedAtRank(lines, n - 1, i);
    }
  }

  /** Every line is in exactly one part: the parts' lengths add up to the text's. */
  lemma {:induction false} RolesPartition(lines: seq<Line>, n: nat)
    requires n <= |lines|
    ensures |Select(lines, Kept, n)| + |Select(lines, Opening, n)| + |Select(lines, Collected, n)| == n
  {
    if n > 0 {
      RolesPartition(lines, n - 1);
    }
  }

  // ---- Extracting ----

  datatype Finding = Finding(kind: Kind, text: string)

  /** bullet: the text of a bullet line; empty: it says there are none; body: the trimmed text of plain lines. */
  datatype Wording = Wording(
    bullet: Line -> Option<string>, empty: string -> bool, discarded: string -> bool, body: seq<Line> -> string)

  function Bullets(lines: seq<Line>, w: Wording): seq<string> {
    if lines == [] then []
    else (if w.bullet(lines[0]).Some? then [w.bullet(lines[0]).value] else []) + Bullets(lines[1..], w)
  }

  function BulletFindings(bullets: seq<string>, kind: Kind, w: Wording): seq<Finding> {
    if bullets == [] then []
    else
      (if w.empty(bullets[0]) then []
       else [Finding(if w.discarded(bullets[0]) then Discarded else kind, bullets[0])])
      + BulletFindings(bullets[1..], kind, w)
  }

  /** The findings of one section. */
  function SectionFindings(lines: seq<Line>, kind: Kind, w: Wording): seq<Finding> {
    if lines == [] then []
    else
      var bullets := Bullets(lines, w);
      if bullets != [] then BulletFindings(bullets, kind, w)
      else if w.empty(w.body(lines)) || w.body(lines) == "" then []
      else [Finding(kind, w.body(lines))]
  }

  /** A section: where its heading is and the lines collected under it so far. */
  datatype Section = Section(kind: Kind, lines: seq<Line>)

  /** The sections among the first n lines, in order: one per opening line. */
  function Sections(lines: seq<Line>, n: nat): (r: seq<Section>)
    requires n <= |lines|
    ensures SectionAt(lines, n).Some? ==> r != []
  {
    if n == 0 then []
    else
      var before := Sections(lines, n - 1);
      match RoleAt(lines, n - 1)
      case Kept => before
      case Opening => before + [Section(lines[n - 1].heading.value.kind, [])]
      case Collected => before[|before| - 1 := before[|before| - 1].(lines := before[|before| - 1].lines + [lines[n - 1]])]
  }

  function FindingsOf(sections: seq<Section>, w: Wording): seq<Finding> {
    if sections == [] then []
    else FindingsOf(sections[..|sections| - 1], w) +
         SectionFindings(sections[|sections| - 1].lines, sections[|sections| - 1].kind, w)
  }

  function LinesOfSections(sections: seq<Section>): seq<Line> {
    if sections == [] then []
    else LinesOfSections(sections[..|sections| - 1]) + sections[|sections| - 1].lines
  }

  lemma SectionOpened(sections: seq<Section>, kind: Kind)
    ensures LinesOfSections(sections + [Section(kind, [])]) == LinesOfSections(sections)
  {
    assert (sections + [Section(kind, [])])[..|sections|] == sections;
  }

  lemma SectionGrown(sections: seq<Section>, line: Line)
    requires sections != []
    ensures var last := sections[|sections| - 1];
      var grown := sections[|sections| - 1 := last.(lines := last.lines + [line])];
      LinesOfSections(grown) == LinesOfSections(sections) + [line]
  {
    var last := sections[|sections| - 1];
    var grown := sections[|sections| - 1 := last.(lines := last.lines + [line])];
    assert grown[..|sections| - 1] == sections[..|sections| - 1];
  }

  lemma {:induction false} OneSectionPerOpening(lines: seq<Line>, n: nat)
    requires n <= |lines|
    ensures |Sections(lines, n)| == |Select(lines, Opening, n)|
  {
    if n > 0 {
      OneSectionPerOpening(lines, n - 1);
    }
  }

  lemma {:induction false} SectionLinesAreCollected(lines: seq<Line>, n: nat)
    requires n <= |lines|
    ensures LinesOfSections(Sections(lines, n)) == Select(lines, Collected, n)
  {
    if n > 0 {
      hide LinesOfSections, SectionAt;
      SectionLinesAreCollected(lines, n - 1);
      var before := Sections(lines, n - 1);
      match RoleAt(lines, n - 1)
      case Kept =>
      case Opening => SectionOpened(before, lines[n - 1].heading.value.kind);
      case Collected => SectionGrown(before, lines[n - 1]);
    }
  }

  /** The sections hold the collected lines, all of them, in order. */
  lemma SectionsHoldCollected(lines: seq<Line>, n: nat)
    requires n <= |lines|
    ensures LinesOfSections(Sections(lines, n)) == Select(lines, Collected, n)
    ensures |Sections(lines, n)| == |Select(lines, Opening, n)|
  {
    SectionLinesAreCollected(lines, n);
    OneSectionPerOpening(lines, n);
  }

  // ---- The extracting loop ----

  /** The sections that were closed, and the one being collected with its level. */
  datatype Extract = Extract(closed: seq<Section>, collecting: bool, level: int, current: Section)

  function Flush(st: Extract): Extract {
    st.(closed := st.closed + [st.current], collecting := false, current := st.current.(lines := []))
  }

  function ExtractLine(st: Extract, line: Line): Extract {
    var flushed := if line.heading.Some? && st.collecting && line.heading.value.level <= st.level then Flush(st) else st;
    if line.heading.Some? && !flushed.collecting && line.heading.value.weak then
      flushed.(collecting := true, level := line.heading.value.level, current := Section(line.heading.value.kind, []))
    else if flushed.collecting then
      flushed.(current := flushed.current.(lines := flushed.current.lines + [line]))
    else flushed
  }

  function ExtractLines(lines: seq<Line>, n: nat): Extract
    requires n <= |lines|
  {
    if n == 0 then Extract([], false, 0, Section(Weak, [])) else ExtractLine(ExtractLines(lines, n - 1), lines[n - 1])
  }

  function AllSections(st: Extract): seq<Section> {
    if st.collecting then st.closed + [st.current] else st.closed
  }

  /** The loop collects the same sections that the roles give. */
  lemma {:induction false} ExtractIsSections(lines: seq<Line>, n: nat)
    requires n <= |lines|
    ensures AllSections(ExtractLines(lines, n)) == Sections(lines, n)
    ensures SectionAt(lines, n) == if ExtractLines(lines, n).collecting then Some(ExtractLines(lines, n).level) else None
  {
    if n > 0 {
      ExtractIsSections(lines, n - 1);
    }
  }

  lemma FindingsSnoc(closed: seq<Section>, last: Section, w: Wording)
    ensures FindingsOf(closed + [last], w) == FindingsOf(closed, w) + SectionFindings(last.lines, last.kind, w)
  {
    assert (closed + [last])[..|closed|] == closed;
  }

  method ExtractFindings(lines: seq<Line>, w: Wording) returns (findings: seq<Finding>)
    ensures findings == FindingsOf(Sections(lines, |lines|), w)
  {
    findings := [];
    ghost var st := ExtractLines(lines, 0);
    var collecting := false;
    var sectionLevel := 0;
    var sectionKind := Weak;
    var sectionLines: seq<Line> := [];
    for i := 0 to |lines|
      invariant st == ExtractLines(lines, i)
      invariant st == Extract(st.closed, collecting, sectionLevel, Section(sectionKind, sectionLines))
      invariant findings == FindingsOf(st.closed, w)
    {
      var line := lines[i];
      ghost var next := ExtractLine(st, line);
      if line.heading.Some? {
        var level := line.heading.value.level;
        if collecting && level <= sectionLevel {
          FindingsSnoc(st.closed, st.current, w);
          findings := findings + SectionFindings(sectionLines, sectionKind, w);
          sectionLines := [];
          collecting := false;
        }
        if !collecting && line.heading.value.weak {
          collecting := true;
          sectionLevel := level;
          sectionKind := line.heading.value.kind;
          sectionLines := [];
          st := next;
          continue;
        }
      }
      if collecting {
        sectionLines := sectionLines + [line];
      }
      st := next;
    }
    ExtractIsSections(lines, |lines|);
    if collecting {
      FindingsSnoc(st.closed, st.current, w);
      findings := findings + SectionFindings(sectionLines, sectionKind, w);
    }
  }

  /** The two scanners agree: nothing is extracted from what stripping keeps. */
  lemma NothingToExtractAfterStrip(lines: seq<Line>, w: Wording)
    ensures var kept := Select(lines, Kept, |lines|); FindingsOf(Sections(kept, |kept|), w) == []
  {
    var kept := Select(lines, Kept, |lines|);
    StripIsIdempotent(lines);
    SectionsHoldCollected(kept, |kept|);
  }
}
