/**
  Which lines a collected section has and what is extracted from it
  (packages/shared/src/auditCardDecision.ts:168-227).
 */
module AuditFindings {
  import opened Collections
  import opened AuditSections

  // ---- The lines of a section ----

  /** The line at j opens the section that holds all lines behind it up to the end, and no more. */
  ghost predicate SectionSpans(lines: seq<Line>, n: nat, j: nat, end: nat)
    requires j < end <= n <= |lines|
  {
    && RoleAt(lines, j) == Opening
    && (forall i :: j < i < end ==> RoleAt(lines, i) == Collected)
    && (end < n ==> RoleAt(lines, end) != Collected)
  }

  lemma OpeningIsHeading(lines: seq<Line>, j: nat)
    requires j < |lines| && RoleAt(lines, j) == Opening
    ensures lines[j].heading.Some?
  {
    OpeningIffUncoveredHeading(lines, j);
  }

  /** What one more line does to the section at k. */
  lemma NextSection(lines: seq<Line>, n: nat, k: nat)
    requires n < |lines| && k < |Sections(lines, n)|
    ensures k < |Sections(lines, n + 1)|
    ensures var section := Sections(lines, n)[k];
      Sections(lines, n + 1)[k] ==
      if RoleAt(lines, n) == Collected && k == |Sections(lines, n)| - 1
      then section.(lines := section.lines + [lines[n]]) else section
  {
    if RoleAt(lines, n) == Collected {
      CollectedIffCovered(lines, n);
    }
  }

  /** A line that does not end the section leaves its span; a collected one right behind it joins. */
  lemma NextSpan(lines: seq<Line>, n: nat, j: nat, end: nat)
    requires j < end <= n < |lines| && SectionSpans(lines, n, j, end)
    ensures end < n || RoleAt(lines, n) != Collected ==> SectionSpans(lines, n + 1, j, end)
    ensures end == n && RoleAt(lines, n) == Collected ==> SectionSpans(lines, n + 1, j, n + 1)
  {
  }

  lemma SectionBegins(lines: seq<Line>, j: nat)
    requires j < |lines| && RoleAt(lines, j) == Opening && lines[j].heading.Some?
    ensures SectionSpans(lines, j + 1, j, j + 1)
    ensures var k := |Select(lines, Opening, j)|;
      k < |Sections(lines, j + 1)| && Sections(lines, j + 1)[k] == Section(lines[j].heading.value.kind, lines[j + 1..j + 1])
  {
    OneSectionPerOpening(lines, j);
  }

  /** The section that the line at j opens has its kind and the lines behind it up to the end. */
  ghost predicate SpansSection(lines: seq<Line>, n: nat, j: nat, end: nat)
    requires j < end <= n <= |lines|
  {
    var k := |Select(lines, Opening, j)|;
    && SectionSpans(lines, n, j, end) && lines[j].heading.Some?
    && k < |Sections(lines, n)| && Sections(lines, n)[k] == Section(lines[j].heading.value.kind, lines[j + 1..end])
  }

  lemma SectionStays(lines: seq<Line>, n: nat, j: nat, end: nat)
    requires j < end <= n < |lines| && SpansSection(lines, n, j, end)
    requires RoleAt(lines, n) == Collected ==> end < n
    ensures SpansSection(lines, n + 1, j, end)
  {
    NextSection(lines, n, |Select(lines, Opening, j)|);
    NextSpan(lines, n, j, end);
    OneSectionPerOpening(lines, n);
    if RoleAt(lines, n) == Collected {
      EndedSectionIsNotLast(lines, n, j, end);
    }
    hide Sections, Select, SectionSpans, RoleAt;
  }

  lemma SectionGrows(lines: seq<Line>, n: nat, j: nat)
    requires j < n < |lines| && SpansSection(lines, n, j, n) && RoleAt(lines, n) == Collected
    ensures SpansSection(lines, n + 1, j, n + 1)
  {
    NextSection(lines, n, |Select(lines, Opening, j)|);
    NextSpan(lines, n, j, n);
    OneSectionPerOpening(lines, n);
    LastSectionGrows(lines, n, j, n);
    assert lines[j + 1..n + 1] == lines[j + 1..n] + [lines[n]];
    hide Sections, Select, SectionSpans, RoleAt;
  }

  /** The k-th opening line's section has its kind and exactly the lines that follow it while they are collected. */
  lemma {:induction false} SectionIsSpan(lines: seq<Line>, n: nat, j: nat) returns (end: nat)
    requires j < n <= |lines| && RoleAt(lines, j) == Opening
    ensures j < end <= n && SpansSection(lines, n, j, end)
    decreases n
  {
    hide SectionSpans, Sections, Select;
    OpeningIsHeading(lines, j);
    if j == n - 1 {
      end := n;
      SectionBegins(lines, j);
    } else {
      hide SpansSection, RoleAt;
      end := SectionIsSpan(lines, n - 1, j);
      if RoleAt(lines, n - 1) == Collected && end == n - 1 {
        SectionGrows(lines, n - 1, j);
        end := n;
      } else {
        SectionStays(lines, n - 1, j, end);
      }
    }
  }

  lemma {:induction false} LastSectionGrows(lines: seq<Line>, n: nat, j: nat, end: nat)
    requires j < end == n <= |lines| && SectionSpans(lines, n, j, end)
    ensures |Select(lines, Opening, n)| == |Select(lines, Opening, j)| + 1
    decreases n
  {
    if j < n - 1 {
      LastSectionGrows(lines, n - 1, j, end - 1);
    }
  }

  lemma {:induction false} OpeningsGrow(lines: seq<Line>, a: nat, b: nat)
    requires a <= b <= |lines|
    ensures |Select(lines, Opening, a)| <= |Select(lines, Opening, b)|
    decreases b
  {
    if a < b {
      OpeningsGrow(lines, a, b - 1);
    }
  }

  lemma OpeningCounts(lines: seq<Line>, j: nat)
    requires j < |lines| && RoleAt(lines, j) == Opening
    ensures |Select(lines, Opening, j + 1)| == |Select(lines, Opening, j)| + 1
  {
  }

  /** A collected line behind the end of a section belongs to a later one. */
  lemma EndedSectionIsNotLast(lines: seq<Line>, i: nat, j: nat, end: nat)
    requires j < end < i < |lines| && SectionSpans(lines, i, j, end) && RoleAt(lines, i) == Collected
    ensures |Select(lines, Opening, i)| > |Select(lines, Opening, j)| + 1
  {
    hide Select, RoleAt;
    CollectedIffCovered(lines, i);
    var opener :| 0 <= opener < i && Covers(lines, opener, i);
    if opener < end {
      CoveredBetween(lines, opener, end, i);
      CollectedIffCovered(lines, end);
    }
    LastSectionGrows(lines, end, j, end);
    OpeningsGrow(lines, end, opener);
    OpeningCounts(lines, opener);
    OpeningsGrow(lines, opener + 1, i);
  }

  lemma CoveredBetween(lines: seq<Line>, j: nat, m: nat, i: nat)
    requires j < m < i < |lines| && Covers(lines, j, i)
    ensures Covered(lines, m)
  {
    assert Covers(lines, j, m);
  }

  // ---- The findings of a section ----

  /** A bullet line of the section says this, and not that there is nothing. */
  ghost predicate BulletSays(lines: seq<Line>, w: Wording, text: string) {
    !w.empty(text) && exists line :: line in lines && w.bullet(line) == Some(text)
  }

  ghost predicate HasBullets(lines: seq<Line>, w: Wording) {
    exists line :: line in lines && w.bullet(line).Some?
  }

  lemma {:induction false} BulletsAre(lines: seq<Line>, w: Wording, text: string)
    ensures text in Bullets(lines, w) <==> exists line :: line in lines && w.bullet(line) == Some(text)
  {
    if lines != [] {
      BulletsAre(lines[1..], w, text);
    }
  }

  lemma {:induction false} BulletFindingsAre(bullets: seq<string>, kind: Kind, w: Wording, f: Finding)
    ensures f in BulletFindings(bullets, kind, w) <==>
            f.text in bullets && !w.empty(f.text) && f.kind == if w.discarded(f.text) then Discarded else kind
  {
    if bullets != [] {
      BulletFindingsAre(bullets[1..], kind, w, f);
    }
  }

  lemma HasBulletsIff(lines: seq<Line>, w: Wording)
    ensures Bullets(lines, w) != [] <==> HasBullets(lines, w)
  {
    if Bullets(lines, w) != [] {
      var text := Bullets(lines, w)[0];
      BulletsAre(lines, w, text);
      assert text in Bullets(lines, w);
    }
    if line :| line in lines && w.bullet(line).Some? {
      BulletsAre(lines, w, w.bullet(line).value);
    }
  }

  /**
    A section with bullets gives one finding for what each says, of the section's kind or discarded as it says, and
    none for those that say there is nothing; a section without gives its whole text, if it says anything.
   */
  lemma ExtractedIff(lines: seq<Line>, kind: Kind, w: Wording, f: Finding)
    ensures f in SectionFindings(lines, kind, w) <==>
            if HasBullets(lines, w)
            then BulletSays(lines, w, f.text) && f.kind == (if w.discarded(f.text) then Discarded else kind)
            else lines != [] && f == Finding(kind, w.body(lines)) && f.text != "" && !w.empty(f.text)
  {
    HasBulletsIff(lines, w);
    BulletsAre(lines, w, f.text);
    BulletFindingsAre(Bullets(lines, w), kind, w, f);
  }

  function Texts(findings: seq<Finding>): seq<string> {
    Map(findings, (f: Finding) => f.text)
  }

  lemma TextsOfPair(a: seq<Finding>, b: seq<Finding>)
    ensures Texts(a + b) == Texts(a) + Texts(b)
  {
  }

  /** The findings come in the order of the bullets, one each. */
  lemma {:induction false} ExtractedInOrder(bullets: seq<string>, kind: Kind, w: Wording)
    ensures Texts(BulletFindings(bullets, kind, w)) == Spoken(bullets, w)
  {
    if bullets != [] {
      ExtractedInOrder(bullets[1..], kind, w);
      var first := if w.empty(bullets[0]) then []
                   else [Finding(if w.discarded(bullets[0]) then Discarded else kind, bullets[0])];
      TextsOfPair(first, BulletFindings(bullets[1..], kind, w));
      assert Texts(first) == if w.empty(bullets[0]) then [] else [bullets[0]];
    }
  }

  /** The bullets that say something. */
  function Spoken(bullets: seq<string>, w: Wording): seq<string> {
    Filter(bullets, (text: string) => !w.empty(text))
  }

  predicate Gives(section: Section, w: Wording, f: Finding) {
    f in SectionFindings(section.lines, section.kind, w)
  }

  ghost predicate SomeGives(sections: seq<Section>, w: Wording, f: Finding) {
    exists section :: section in sections && Gives(section, w, f)
  }

  lemma GivesMore(before: seq<Section>, last: Section, w: Wording, f: Finding)
    ensures SomeGives(before + [last], w, f) <==> SomeGives(before, w, f) || Gives(last, w, f)
  {
    hide Gives;
    if section :| section in before && Gives(section, w, f) {
      assert section in before + [last];
    }
    assert last in before + [last];
  }

  lemma FindingsMore(before: seq<Section>, last: Section, w: Wording, f: Finding)
    ensures f in FindingsOf(before + [last], w) <==> f in FindingsOf(before, w) || Gives(last, w, f)
  {
    FindingsSnoc(before, last, w);
    hide FindingsOf, SectionFindings;
  }

  /** What is extracted is what the sections give. */
  lemma {:induction false} FindingsAre(sections: seq<Section>, w: Wording, f: Finding)
    ensures f in FindingsOf(sections, w) <==> SomeGives(sections, w, f)
  {
    if sections != [] {
      hide *;
      var before, last := sections[..|sections| - 1], sections[|sections| - 1];
      assert sections == before + [last];
      FindingsAre(before, w, f);
      FindingsMore(before, last, w, f);
      GivesMore(before, last, w, f);
    }
  }
}
