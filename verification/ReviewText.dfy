/**
  The text operations that the review printer and parser rest on: whitespace, trimming, lines, and
  the cut before the raw review sections (packages/agent/src/reviewContract.ts:118, 274-280, 1007).
 */
module ReviewText {
  // ---- Whitespace and trimming ----

  /** What JavaScript's \s matches and trim removes. */
  predicate White(c: char) {
    || ('\t' <= c <= '\r') || c == ' ' || c == '\U{00A0}' || c == '\U{1680}' || ('\U{2000}' <= c <= '\U{200A}')
    || c == '\U{2028}' || c == '\U{2029}' || c == '\U{202F}' || c == '\U{205F}' || c == '\U{3000}' || c == '\U{FEFF}'
  }

  /** What a dot in a pattern does not match. */
  predicate LineTerminator(c: char) {
    c == '\n' || c == '\r' || c == '\U{2028}' || c == '\U{2029}'
  }

  function SkipWhite(s: string): string {
    if s != "" && White(s[0]) then SkipWhite(s[1..]) else s
  }

  function TrimEnd(s: string): string {
    if s != "" && White(s[|s| - 1]) then TrimEnd(s[..|s| - 1]) else s
  }

  function Trim(s: string): string {
    TrimEnd(SkipWhite(s))
  }

  predicate Trimmed(s: string) {
    s != "" ==> !White(s[0]) && !White(s[|s| - 1])
  }

  lemma TrimTrimmed(s: string)
    requires Trimmed(s)
    ensures Trim(s) == s
  {
  }

  lemma {:induction false} TrimEndStops(s: string, tail: string)
    requires s != "" && !White(s[|s| - 1])
    ensures exists n :: 0 <= n <= |tail| && TrimEnd(s + tail) == s + tail[..n]
    decreases |tail|
  {
    if tail == "" {
      assert s + tail == s && tail[..0] == "";
    } else if White(tail[|tail| - 1]) {
      var shorter := tail[..|tail| - 1];
      assert (s + tail)[..|s + tail| - 1] == s + shorter;
      TrimEndStops(s, shorter);
      var n :| 0 <= n <= |shorter| && TrimEnd(s + shorter) == s + shorter[..n];
      assert tail[..n] == shorter[..n];
    } else {
      assert tail[..|tail|] == tail;
    }
  }

  // ---- Lines ----

  predicate StartsWith(s: string, prefix: string) {
    |s| >= |prefix| && s[..|prefix|] == prefix
  }

  /** The text before the first newline. */
  function FirstLine(s: string): string {
    if s == "" || s[0] == '\n' then "" else [s[0]] + FirstLine(s[1..])
  }

  function DropCarriageReturn(line: string): string {
    if line != "" && line[|line| - 1] == '\r' then line[..|line| - 1] else line
  }

  lemma {:induction false} FirstLineIsPrefix(s: string)
    ensures |FirstLine(s)| <= |s| && FirstLine(s) == s[..|FirstLine(s)|]
    ensures |FirstLine(s)| < |s| ==> s[|FirstLine(s)|] == '\n'
    ensures '\n' !in FirstLine(s)
  {
    if s != "" && s[0] != '\n' {
      FirstLineIsPrefix(s[1..]);
    }
  }

  /** Split at \r?\n. */
  function Lines(s: string): seq<string>
    decreases |s|
  {
    FirstLineIsPrefix(s);
    var first := FirstLine(s);
    if |first| == |s| then [s]
    else [DropCarriageReturn(first)] + Lines(s[|first| + 1..])
  }

  function Join(lines: seq<string>): string {
    if lines == [] then ""
    else if |lines| == 1 then lines[0]
    else lines[0] + "\n" + Join(lines[1..])
  }

  /** A line that survives being joined and split again. */
  predicate PlainLine(line: string) {
    '\n' !in line && (line != "" ==> line[|line| - 1] != '\r')
  }

  lemma {:induction false} FirstLineStops(line: string, rest: string)
    requires '\n' !in line
    ensures FirstLine(line + "\n" + rest) == line
  {
    if line == "" {
      assert (line + "\n" + rest)[0] == '\n';
    } else {
      assert (line + "\n" + rest)[1..] == line[1..] + "\n" + rest;
      FirstLineStops(line[1..], rest);
    }
  }

  lemma {:induction false} FirstLineWhole(line: string)
    requires '\n' !in line
    ensures FirstLine(line) == line
  {
    if line != "" {
      FirstLineWhole(line[1..]);
    }
  }

  ghost predicate PlainLines(lines: seq<string>) {
    forall i :: 0 <= i < |lines| ==> PlainLine(lines[i])
  }

  lemma {:induction false} LinesOfJoin(lines: seq<string>)
    requires lines != [] && PlainLines(lines)
    ensures Lines(Join(lines)) == lines
  {
    if |lines| == 1 {
      FirstLineWhole(lines[0]);
      assert lines == [lines[0]];
    } else {
      var rest := Join(lines[1..]);
      var text := lines[0] + "\n" + rest;
      FirstLineStops(lines[0], rest);
      FirstLineIsPrefix(text);
      assert text[|lines[0]| + 1..] == rest;
      LinesOfJoin(lines[1..]);
    }
  }

  // ---- The cut before the raw sections ----

  const RawHeading := "## Raw Code Review"

  predicate WordChar(c: char) {
    ('a' <= c <= 'z') || ('A' <= c <= 'Z') || ('0' <= c <= '9') || c == '_'
  }

  predicate CutsHere(s: string) {
    StartsWith(s, "\n" + RawHeading) &&
    (|s| > |RawHeading| + 1 ==> !WordChar(s[|RawHeading| + 1]))
  }

  /** Everything before the first raw section heading at the start of a line. */
  function BeforeRaw(s: string): string {
    if s == "" || CutsHere(s) then "" else [s[0]] + BeforeRaw(s[1..])
  }

  lemma NoCutInside(s: string)
    requires s != "" && s[0] != '\n'
    ensures BeforeRaw(s) == [s[0]] + BeforeRaw(s[1..])
  {
  }

  lemma {:induction false} BeforeRawThroughLine(line: string, rest: string)
    requires '\n' !in line
    ensures BeforeRaw(line + rest) == line + BeforeRaw(rest)
  {
    if line == "" {
      assert line + rest == rest;
    } else {
      hide BeforeRaw;
      var first, more := line[0], line[1..];
      assert line == [first] + more && (line + rest)[1..] == more + rest;
      NoCutInside(line + rest);
      BeforeRawThroughLine(more, rest);
      assert [first] + (more + BeforeRaw(rest)) == [first] + more + BeforeRaw(rest);
    }
  }

  lemma PrefixOfLine(line: string, rest: string, prefix: string)
    requires '\n' !in prefix
    requires rest != "" && rest[0] == '\n'
    ensures StartsWith(line + rest, prefix) <==> StartsWith(line, prefix)
  {
    var s := line + rest;
    if |line| < |prefix| {
      assert s[|line|] == '\n' && prefix[|line|] != '\n';
      assert |s| >= |prefix| ==> s[..|prefix|][|line|] == '\n';
    } else {
      assert s[..|prefix|] == line[..|prefix|];
    }
  }

  lemma StartsWithBehind(c: char, s: string, prefix: string)
    ensures StartsWith([c] + s, [c] + prefix) <==> StartsWith(s, prefix)
  {
    if |s| >= |prefix| {
      assert ([c] + s)[..|prefix| + 1] == [c] + s[..|prefix|];
      assert ([c] + prefix)[1..] == prefix && ([c] + s[..|prefix|])[1..] == s[..|prefix|];
    }
  }

  lemma NoCutBeforeLine(line: string, rest: string)
    requires !StartsWith(line, RawHeading)
    requires rest != "" && rest[0] == '\n'
    ensures !CutsHere("\n" + line + rest)
  {
    PrefixOfLine(line, rest, RawHeading);
    StartsWithBehind('\n', line + rest, RawHeading);
    assert ['\n'] + (line + rest) == "\n" + line + rest;
    assert ['\n'] + RawHeading == "\n" + RawHeading;
  }

  /** No line is the raw heading. */
  ghost predicate NoRawHeading(lines: seq<string>) {
    forall i :: 0 <= i < |lines| ==> '\n' !in lines[i] && !StartsWith(lines[i], RawHeading)
  }

  lemma BeforeRawAtCut(end: string)
    requires CutsHere(end)
    ensures BeforeRaw(end) == ""
  {
  }

  lemma BeforeRawStep(rest: string)
    requires !CutsHere("\n" + rest)
    ensures BeforeRaw("\n" + rest) == "\n" + BeforeRaw(rest)
  {
    assert ("\n" + rest)[1..] == rest;
  }

  lemma StartOfJoin(lines: seq<string>, end: string) returns (rest: string)
    requires lines != []
    requires end != "" && end[0] == '\n'
    ensures Join(lines) + end == lines[0] + rest
    ensures rest != "" && rest[0] == '\n'
    ensures rest == if |lines| == 1 then end else "\n" + (Join(lines[1..]) + end)
  {
    rest := if |lines| == 1 then end else "\n" + (Join(lines[1..]) + end);
  }

  /** Joined lines, none of which is the heading, come back whole from before it. */
  lemma {:induction false} BeforeRawOfJoin(lines: seq<string>, end: string)
    requires lines != [] && NoRawHeading(lines)
    requires CutsHere(end) && end != "" && end[0] == '\n'
    ensures BeforeRaw(Join(lines) + end) == Join(lines)
  {
    var rest := StartOfJoin(lines, end);
    BeforeRawThroughLine(lines[0], rest);
    if |lines| == 1 {
      BeforeRawAtCut(end);
    } else {
      var more := StartOfJoin(lines[1..], end);
      NoCutBeforeLine(lines[1], more);
      assert "\n" + (Join(lines[1..]) + end) == "\n" + lines[1] + more;
      BeforeRawStep(Join(lines[1..]) + end);
      BeforeRawOfJoin(lines[1..], end);
    }
  }

  // ---- Normalized texts ----

  /** normalizeFindingText: whitespace runs become one space, none at the ends. */
  function Collapse(s: string): string {
    Trim(Squeeze(s))
  }

  function Squeeze(s: string): string
    decreases |s|
  {
    if s == "" then ""
    else if !White(s[0]) then [s[0]] + Squeeze(s[1..])
    else if |s| > 1 && White(s[1]) then Squeeze(s[1..])
    else " " + Squeeze(s[1..])
  }

  /** A text that fits in one row: trimmed, and without anything a row pattern's dot rejects. */
  predicate OneRow(s: string) {
    Trimmed(s) && forall i :: 0 <= i < |s| ==> !LineTerminator(s[i])
  }

  /** What the contract needs of the text normalization. */
  ghost predicate Normalizes(norm: string -> string) {
    && (forall t :: OneRow(norm(t)))
    && (forall t :: norm(norm(t)) == norm(t))
  }

  /** The only whitespace is single spaces. */
  predicate Squeezed(s: string) {
    forall i :: 0 <= i < |s| && White(s[i]) ==> s[i] == ' ' && (i + 1 < |s| ==> !White(s[i + 1]))
  }

  lemma {:induction false} SqueezeSqueezes(s: string)
    ensures Squeezed(Squeeze(s))
    ensures Squeeze(s) != "" ==> s != "" && (White(Squeeze(s)[0]) <==> White(s[0]))
    decreases |s|
  {
    if s != "" {
      SqueezeSqueezes(s[1..]);
    }
  }

  lemma {:induction false} SqueezeKeeps(s: string)
    requires Squeezed(s)
    ensures Squeeze(s) == s
    decreases |s|
  {
    if s != "" {
      assert Squeezed(s[1..]);
      SqueezeKeeps(s[1..]);
    }
  }

  lemma {:induction false} SkipWhiteIsSuffix(s: string) returns (i: nat)
    ensures i <= |s| && SkipWhite(s) == s[i..]
    ensures SkipWhite(s) != "" ==> !White(SkipWhite(s)[0])
  {
    if s != "" && White(s[0]) {
      var j := SkipWhiteIsSuffix(s[1..]);
      i := j + 1;
    } else {
      i := 0;
    }
  }

  lemma {:induction false} TrimEndIsPrefix(s: string) returns (i: nat)
    ensures i <= |s| && TrimEnd(s) == s[..i]
    ensures TrimEnd(s) != "" ==> !White(TrimEnd(s)[|TrimEnd(s)| - 1])
  {
    if s != "" && White(s[|s| - 1]) {
      i := TrimEndIsPrefix(s[..|s| - 1]);
    } else {
      i := |s|;
    }
  }

  lemma {:induction false} SqueezeKeepsVisible(s: string, i: nat) returns (j: nat)
    requires i < |s| && !White(s[i])
    ensures j < |Squeeze(s)| && !White(Squeeze(s)[j])
    decreases |s|
  {
    if i == 0 {
      j := 0;
    } else {
      j := SqueezeKeepsVisible(s[1..], i - 1);
      if Squeeze(s) != Squeeze(s[1..]) {
        j := j + 1;
      }
    }
  }

  lemma {:induction false} SkipKeepsVisible(s: string, i: nat) returns (j: nat)
    requires i < |s| && !White(s[i])
    ensures j < |SkipWhite(s)| && !White(SkipWhite(s)[j])
  {
    if White(s[0]) {
      j := SkipKeepsVisible(s[1..], i - 1);
    } else {
      j := i;
    }
  }

  lemma {:induction false} TrimEndKeepsVisible(s: string, i: nat)
    requires i < |s| && !White(s[i])
    ensures TrimEnd(s) != ""
  {
    if White(s[|s| - 1]) {
      TrimEndKeepsVisible(s[..|s| - 1], i);
    }
  }

  lemma TrimKeepsVisible(s: string, i: nat)
    requires i < |s| && !White(s[i])
    ensures Trim(s) != ""
  {
    var j := SkipKeepsVisible(s, i);
    TrimEndKeepsVisible(SkipWhite(s), j);
  }

  /** A trimmed text is a part of the original with no whitespace at its ends. */
  lemma TrimIsPart(s: string) returns (i: nat, j: nat)
    ensures i <= j <= |s| && Trim(s) == s[i..j]
    ensures Trimmed(Trim(s))
  {
    i := SkipWhiteIsSuffix(s);
    var n := TrimEndIsPrefix(s[i..]);
    j := i + n;
    assert s[i..j] == s[i..][..n];
  }

  /** The whitespace normalization alone, without redaction, is one such normalization. */
  lemma CollapseNormalizes()
    ensures Normalizes(Collapse)
  {
    forall t
      ensures OneRow(Collapse(t)) && Collapse(Collapse(t)) == Collapse(t)
    {
      SqueezeSqueezes(t);
      var i, j := TrimIsPart(Squeeze(t));
      assert Squeezed(Squeeze(t)[i..j]);
      SqueezeKeeps(Collapse(t));
      TrimTrimmed(Collapse(t));
    }
  }
}
