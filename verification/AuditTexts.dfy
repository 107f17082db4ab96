/**
  The section scanners on whole texts, which are split at line ends and joined again
  (packages/shared/src/auditCardDecision.ts:131-155, 168-227).
 */
module AuditTexts {
  import opened Collections
  import opened ReviewText
  import opened AuditSections

  /** What the pattern for headings says about a line. */
  type Headings = string -> Option<Heading>

  function Read(texts: seq<string>, heading: Headings): seq<Line> {
    Map(texts, (t: string) => Line(t, heading(t)))
  }

  function TextsOf(lines: seq<Line>): seq<string> {
    Map(lines, (line: Line) => line.text)
  }

  function KeptLines(text: string, heading: Headings): seq<Line> {
    var lines := Read(Lines(text), heading);
    Select(lines, Kept, |lines|)
  }

  function StripText(text: string, heading: Headings): string {
    Join(TextsOf(KeptLines(text, heading)))
  }

  /** The lines with the carriage return dropped that ends any but the last of them. */
  function DropInner(lines: seq<string>): seq<string> {
    if |lines| <= 1 then lines else [DropCarriageReturn(lines[0])] + DropInner(lines[1..])
  }

  ghost predicate OneLiners(lines: seq<string>) {
    forall i :: 0 <= i < |lines| ==> '\n' !in lines[i]
  }

  lemma {:induction false} LinesAreOneLiners(text: string)
    ensures OneLiners(Lines(text))
    decreases |text|
  {
    FirstLineIsPrefix(text);
    var first := FirstLine(text);
    if |first| < |text| {
      LinesAreOneLiners(text[|first| + 1..]);
    }
  }

  /** Joining lines and splitting again drops those carriage returns and nothing else. */
  lemma {:induction false} LinesOfJoined(lines: seq<string>)
    requires lines != [] && OneLiners(lines)
    ensures Lines(Join(lines)) == DropInner(lines)
  {
    if |lines| == 1 {
      FirstLineWhole(lines[0]);
      assert lines == [lines[0]];
    } else {
      var rest := Join(lines[1..]);
      var text := lines[0] + "\n" + rest;
      FirstLineStops(lines[0], rest);
      FirstLineIsPrefix(text);
      assert text[|lines[0]| + 1..] == rest;
      LinesOfJoined(lines[1..]);
    }
  }

  predicate EndsInReturn(line: string) {
    line != "" && line[|line| - 1] == '\r'
  }

  /** No line but the last ends in a carriage return. */
  ghost predicate NoInnerReturn(lines: seq<string>) {
    forall i :: 0 <= i < |lines| - 1 ==> !EndsInReturn(lines[i])
  }

  lemma InnerReturnCons(line: string, rest: seq<string>)
    requires rest != []
    ensures NoInnerReturn([line] + rest) <==> !EndsInReturn(line) && NoInnerReturn(rest)
  {
    var lines := [line] + rest;
    if NoInnerReturn(lines) {
      assert !EndsInReturn(lines[0]);
      forall i | 0 <= i < |rest| - 1
        ensures !EndsInReturn(rest[i])
      {
        assert !EndsInReturn(lines[i + 1]);
      }
    }
    if !EndsInReturn(line) && NoInnerReturn(rest) {
      forall i | 0 <= i < |lines| - 1
        ensures !EndsInReturn(lines[i])
      {
        assert i > 0 ==> lines[i] == rest[i - 1];
      }
    }
  }

  lemma DropInnerCons(line: string, rest: seq<string>)
    requires rest != []
    ensures DropInner([line] + rest) == [DropCarriageReturn(line)] + DropInner(rest)
    ensures |Join([line] + rest)| == |line| + 1 + |Join(rest)|
  {
    assert ([line] + rest)[1..] == rest;
  }

  /** Dropping carriage returns shortens the joined text exactly when there are any. */
  lemma {:induction false} DropInnerShortens(lines: seq<string>)
    ensures |DropInner(lines)| == |lines| && |Join(DropInner(lines))| <= |Join(lines)|
    ensures if NoInnerReturn(lines) then DropInner(lines) == lines else |Join(DropInner(lines))| < |Join(lines)|
  {
    if |lines| > 1 {
      var line, rest := lines[0], lines[1..];
      assert lines == [line] + rest;
      DropInnerShortens(rest);
      InnerReturnCons(line, rest);
      DropInnerCons(line, rest);
      DropInnerCons(DropCarriageReturn(line), DropInner(rest));
    }
  }

  lemma {:induction false} JoinLonger(lines: seq<string>, last: string)
    ensures |Join(lines + [last])| == |Join(lines)| + (if lines == [] then 0 else 1) + |last|
  {
    if lines == [] {
      assert lines + [last] == [last];
    } else {
      assert (lines + [last])[1..] == lines[1..] + [last];
      JoinLonger(lines[1..], last);
      if |lines| == 1 {
        assert lines[1..] == [];
      }
    }
  }

  lemma TextsMore(lines: seq<Line>, last: Line)
    ensures TextsOf(lines + [last]) == TextsOf(lines) + [last.text]
  {
  }

  /** The kept lines make no longer a text than all of them. */
  lemma {:induction false} KeptIsNoLonger(lines: seq<Line>, n: nat)
    requires n <= |lines|
    ensures |Join(TextsOf(Select(lines, Kept, n)))| <= |Join(TextsOf(lines[..n]))|
  {
    if n > 0 {
      KeptIsNoLonger(lines, n - 1);
      var kept, all, last := Select(lines, Kept, n - 1), lines[..n - 1], lines[n - 1];
      assert lines[..n] == all + [last];
      TextsMore(kept, last);
      TextsMore(all, last);
      JoinLonger(TextsOf(kept), last.text);
      JoinLonger(TextsOf(all), last.text);
      assert kept + [] == kept;
      assert all == [] ==> kept == [];
    }
  }

  lemma TextsOfRead(texts: seq<string>, heading: Headings)
    ensures TextsOf(Read(texts, heading)) == texts
  {
  }

  /** Kept lines are lines of the text as they were read. */
  lemma KeptLinesAreRead(text: string, heading: Headings)
    ensures Read(TextsOf(KeptLines(text, heading)), heading) == KeptLines(text, heading)
    ensures OneLiners(TextsOf(KeptLines(text, heading)))
  {
    var lines := Read(Lines(text), heading);
    var kept := KeptLines(text, heading);
    LinesAreOneLiners(text);
    forall i | 0 <= i < |kept|
      ensures kept[i] == Line(kept[i].text, heading(kept[i].text)) && '\n' !in kept[i].text
    {
      SelectedHaveRole(lines, Kept, |lines|, kept[i]);
    }
  }

  lemma StrippedTwice(text: string, heading: Headings)
    requires KeptLines(text, heading) != []
    ensures var again := Read(DropInner(TextsOf(KeptLines(text, heading))), heading);
      StripText(StripText(text, heading), heading) == Join(TextsOf(Select(again, Kept, |again|)))
  {
    KeptLinesAreRead(text, heading);
    LinesOfJoined(TextsOf(KeptLines(text, heading)));
  }

  lemma StrippedToNothing(text: string, heading: Headings)
    requires KeptLines(text, heading) == []
    ensures StripText(text, heading) == "" && StripText("", heading) == ""
  {
    var lines := Read([""], heading);
    assert Lines("") == [""];
    assert Select(lines, Kept, 1) == Select(lines, Kept, 0) + if RoleAt(lines, 0) == Kept then [lines[0]] else [];
    assert TextsOf(Select(lines, Kept, 1)) == [] || TextsOf(Select(lines, Kept, 1)) == [""];
  }

  ghost predicate NoReturn(lines: seq<string>) {
    forall i :: 0 <= i < |lines| ==> !EndsInReturn(lines[i])
  }

  /** The line is kept and ends in a carriage return. */
  predicate KeptReturn(lines: seq<Line>, i: nat)
    requires i < |lines|
  {
    RoleAt(lines, i) == Kept && EndsInReturn(lines[i].text)
  }

  predicate IsKept(lines: seq<Line>, i: nat)
    requires i < |lines|
  {
    RoleAt(lines, i) == Kept
  }

  /** No line that is kept and has a kept line behind it ends in a carriage return. */
  ghost predicate ReturnsOnlyLast(lines: seq<Line>, n: nat)
    requires n <= |lines|
  {
    forall i, j :: 0 <= i < j < n && KeptReturn(lines, i) ==> !IsKept(lines, j)
  }

  lemma SnocReturns(texts: seq<string>, last: string)
    ensures NoInnerReturn(texts + [last]) <==> NoReturn(texts)
    ensures NoReturn(texts + [last]) <==> NoReturn(texts) && !EndsInReturn(last)
  {
    var all := texts + [last];
    assert all[|texts|] == last;
    assert forall i :: 0 <= i < |texts| ==> all[i] == texts[i];
    if NoReturn(all) || NoInnerReturn(all) {
      forall i | 0 <= i < |texts|
        ensures !EndsInReturn(texts[i])
      {
        assert !EndsInReturn(all[i]);
      }
    }
  }

  ghost predicate NoKeptReturn(lines: seq<Line>, n: nat)
    requires n <= |lines|
  {
    forall i :: 0 <= i < n ==> !KeptReturn(lines, i)
  }

  lemma NoKeptReturnMore(lines: seq<Line>, n: nat)
    requires n < |lines|
    ensures NoKeptReturn(lines, n + 1) <==> NoKeptReturn(lines, n) && !KeptReturn(lines, n)
  {
  }

  lemma {:induction false} NoReturnIff(lines: seq<Line>, n: nat)
    requires n <= |lines|
    ensures NoReturn(TextsOf(Select(lines, Kept, n))) <==> NoKeptReturn(lines, n)
  {
    if n > 0 {
      hide NoKeptReturn, NoReturn, EndsInReturn, RoleAt;
      var before := Select(lines, Kept, n - 1);
      NoReturnIff(lines, n - 1);
      NoKeptReturnMore(lines, n - 1);
      if IsKept(lines, n - 1) {
        TextsMore(before, lines[n - 1]);
        SnocReturns(TextsOf(before), lines[n - 1].text);
      } else {
        assert before + [] == before;
      }
    }
  }

  lemma ReturnsOnlyLastMore(lines: seq<Line>, n: nat)
    requires n < |lines|
    ensures ReturnsOnlyLast(lines, n + 1) <==>
            ReturnsOnlyLast(lines, n) && (IsKept(lines, n) ==> NoKeptReturn(lines, n))
  {
  }

  lemma {:induction false} ReturnsOnlyLastIff(lines: seq<Line>, n: nat)
    requires n <= |lines|
    ensures NoInnerReturn(TextsOf(Select(lines, Kept, n))) <==> ReturnsOnlyLast(lines, n)
  {
    if n > 0 {
      ReturnsOnlyLastIff(lines, n - 1);
      ReturnsOnlyLastMore(lines, n - 1);
      var before := Select(lines, Kept, n - 1);
      if IsKept(lines, n - 1) {
        NoReturnIff(lines, n - 1);
        TextsMore(before, lines[n - 1]);
        SnocReturns(TextsOf(before), lines[n - 1].text);
      } else {
        assert before + [] == before;
      }
    }
  }

  lemma StripKeptTwiceIff(text: string, heading: Headings)
    ensures StripText(StripText(text, heading), heading) == StripText(text, heading) <==>
            NoInnerReturn(TextsOf(KeptLines(text, heading)))
  {
    var kept := KeptLines(text, heading);
    if kept == [] {
      StrippedToNothing(text, heading);
    } else {
      var texts := TextsOf(kept);
      var again := Read(DropInner(texts), heading);
      StrippedTwice(text, heading);
      DropInnerShortens(texts);
      if NoInnerReturn(texts) {
        KeptLinesAreRead(text, heading);
        StripIsIdempotent(Read(Lines(text), heading));
      } else {
        KeptIsNoLonger(again, |again|);
        assert again[..|again|] == again;
        TextsOfRead(DropInner(texts), heading);
      }
    }
  }

  /**
    Stripping a text again changes nothing exactly when no line of it that is kept, with another kept line
    behind it, ends in a carriage return: such a return meets a newline and goes when the text is split again.
   */
  lemma StripTextTwiceIff(text: string, heading: Headings)
    ensures var lines := Read(Lines(text), heading);
      StripText(StripText(text, heading), heading) == StripText(text, heading) <==> ReturnsOnlyLast(lines, |lines|)
  {
    var lines := Read(Lines(text), heading);
    StripKeptTwiceIff(text, heading);
    ReturnsOnlyLastIff(lines, |lines|);
  }

  const ReturnedLine := "a\r"
  const ReturnedText := "a\r\r\nb"

  lemma ReturnedTextLines()
    ensures Lines(ReturnedText) == [ReturnedLine, "b"]
  {
    assert ReturnedText == "a\r\r" + "\n" + "b";
    FirstLineStops("a\r\r", "b");
    FirstLineWhole("b");
    assert FirstLine(ReturnedText) == "a\r\r" && "a\r\r"[..2] == ReturnedLine;
    assert ReturnedText[4..] == "b" && Lines("b") == ["b"];
    assert Lines(ReturnedText) == [DropCarriageReturn("a\r\r")] + Lines(ReturnedText[4..]);
  }

  lemma PlainLinesAreKept(texts: seq<string>, heading: Headings)
    requires forall i :: 0 <= i < |texts| ==> heading(texts[i]).None?
    ensures TextsOf(Select(Read(texts, heading), Kept, |texts|)) == texts
  {
    var lines := Read(texts, heading);
    AllKept(lines, |lines|);
    assert lines[..|lines|] == lines;
    TextsOfRead(texts, heading);
  }

  /** A text that stripping twice changes: its first line ends in two carriage returns. */
  lemma ReturnBeforeLineEndIsLost(heading: Headings)
    requires heading(ReturnedLine).None? && heading("b").None?
    ensures StripText(StripText(ReturnedText, heading), heading) != StripText(ReturnedText, heading)
  {
    ReturnedTextLines();
    PlainLinesAreKept([ReturnedLine, "b"], heading);
    assert EndsInReturn([ReturnedLine, "b"][0]);
    StripKeptTwiceIff(ReturnedText, heading);
  }

  /** What the heading pattern promises: no empty heading, and a carriage return at the end does not matter. */
  ghost predicate IgnoresReturn(heading: Headings) {
    heading("").None? && forall line :: heading(DropCarriageReturn(line)) == heading(line)
  }

  lemma {:induction false} DropInnerHasNoWeak(texts: seq<string>, heading: Headings)
    requires IgnoresReturn(heading)
    requires forall i :: 0 <= i < |texts| ==> !WeakHeading(Line(texts[i], heading(texts[i])))
    ensures |DropInner(texts)| == |texts|
    ensures forall i :: 0 <= i < |texts| ==> !WeakHeading(Line(DropInner(texts)[i], heading(DropInner(texts)[i])))
  {
    if |texts| > 1 {
      DropInnerHasNoWeak(texts[1..], heading);
    }
  }

  /** On texts, too, the scanners agree: nothing is extracted from a stripped text. */
  lemma NothingToExtractFromStrippedText(text: string, heading: Headings, w: Wording)
    requires IgnoresReturn(heading)
    ensures var lines := Read(Lines(StripText(text, heading)), heading); FindingsOf(Sections(lines, |lines|), w) == []
  {
    var kept := KeptLines(text, heading);
    var lines := Read(Lines(StripText(text, heading)), heading);
    if kept == [] {
      StrippedToNothing(text, heading);
      assert Lines("") == [""];
    } else {
      KeptLinesAreRead(text, heading);
      LinesOfJoined(TextsOf(kept));
      KeptHasNoWeakHeading(Read(Lines(text), heading));
      DropInnerHasNoWeak(TextsOf(kept), heading);
    }
    AllKept(lines, |lines|);
    SectionsHoldCollected(lines, |lines|);
  }
}
