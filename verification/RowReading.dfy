/**
  Exactly which rows of canonical review comments can be read, and as what
  (packages/agent/src/reviewContract.ts:694-768, 1098-1254).
 */
module RowReading {
  import opened Collections
  import opened ReviewText
  import opened ReviewFindings
  import opened ReviewRows

  // ---- Pieces ----

  predicate Gap(g: string) {
    g != "" && forall i :: 0 <= i < |g| ==> White(g[i])
  }

  /** Text that a gap before it does not run into. */
  predicate Starts(s: string) {
    s == "" || !White(s[0])
  }

  lemma {:induction false} SkipGap(g: string, r: string)
    requires (forall i :: 0 <= i < |g| ==> White(g[i])) && Starts(r)
    ensures SkipWhite(g + r) == r
  {
    if g == "" {
      assert g + r == r;
    } else {
      assert (g + r)[1..] == g[1..] + r;
      SkipGap(g[1..], r);
    }
  }

  lemma {:induction false} SkippedIsGap(s: string) returns (g: string)
    ensures s == g + SkipWhite(s) && (forall i :: 0 <= i < |g| ==> White(g[i])) && Starts(SkipWhite(s))
  {
    if s != "" && White(s[0]) {
      var rest := SkippedIsGap(s[1..]);
      g := [s[0]] + rest;
      assert s == [s[0]] + s[1..];
    } else {
      g := "";
    }
  }

  lemma AfterGapIff(s: string, r: string)
    ensures AfterGap(s) == Some(r) <==> exists g :: Gap(g) && s == g + r && Starts(r)
  {
    if AfterGap(s) == Some(r) {
      var g := SkippedIsGap(s);
      assert g != "" && Gap(g) && s == g + r;
    }
    if g :| Gap(g) && s == g + r && Starts(r) {
      SkipGap(g, r);
      assert s[0] == g[0];
    }
  }

  /** A bar with whitespace around it, and what follows. */
  ghost predicate BarBefore(s: string, r: string) {
    exists g, h :: Gap(g) && Gap(h) && s == g + ("|" + (h + r)) && Starts(r)
  }

  lemma AfterBarIff(s: string, r: string)
    ensures AfterBar(s) == Some(r) <==> BarBefore(s, r)
  {
    if AfterBar(s) == Some(r) {
      var bar := AfterGap(s).value;
      AfterGapIff(s, bar);
      AfterGapIff(bar[1..], r);
      var g :| Gap(g) && s == g + bar && Starts(bar);
      var h :| Gap(h) && bar[1..] == h + r && Starts(r);
      assert bar == "|" + bar[1..];
    }
    if BarBefore(s, r) {
      var g, h :| Gap(g) && Gap(h) && s == g + ("|" + (h + r)) && Starts(r);
      AfterGapIff(s, "|" + (h + r));
      assert ("|" + (h + r))[1..] == h + r;
      AfterGapIff(h + r, r);
    }
  }

  lemma {:induction false} WordIs(s: string)
    ensures forall i :: 0 <= i < |Word(s)| ==> !White(Word(s)[i])
    ensures |Word(s)| < |s| ==> White(s[|Word(s)|])
  {
    if s != "" && !White(s[0]) {
      WordIs(s[1..]);
    }
  }

  /** A name, a bar, and the rest. */
  ghost predicate NamedBefore(s: string, name: string, r: string) {
    Name(name) && exists tail :: s == name + tail && BarBefore(tail, r)
  }

  lemma NameThenBarIff(s: string, name: string, r: string)
    ensures NameThenBar(s) == Some(Field(name, r)) <==> NamedBefore(s, name, r)
  {
    if NameThenBar(s) == Some(Field(name, r)) {
      WordIs(s);
      var tail := s[|name|..];
      AfterBarIff(tail, r);
      assert s == name + tail;
    }
    if NamedBefore(s, name, r) {
      var tail :| s == name + tail && BarBefore(tail, r);
      AfterBarIff(tail, r);
      var g, h :| Gap(g) && Gap(h) && tail == g + ("|" + (h + r)) && Starts(r);
      assert tail[0] == g[0];
      WordStops(name, tail);
      assert s[|name|..] == tail;
    }
  }

  /** A bracketed id, a gap, and the rest. */
  ghost predicate IdBefore(s: string, id: string, r: string) {
    id != "" && ']' !in id && exists g :: Gap(g) && s == "[" + (id + ("]" + (g + r))) && Starts(r)
  }

  lemma {:induction false} UpToBracketStops(id: string, rest: string)
    requires ']' !in id
    ensures UpToBracket(id + ("]" + rest)) == id
  {
    if id == "" {
      assert id + ("]" + rest) == "]" + rest;
    } else {
      assert (id + ("]" + rest))[1..] == id[1..] + ("]" + rest);
      UpToBracketStops(id[1..], rest);
    }
  }

  lemma {:induction false} UpToBracketIs(s: string)
    ensures ']' !in UpToBracket(s)
    ensures |UpToBracket(s)| < |s| ==> s[|UpToBracket(s)|] == ']'
  {
    if s != "" && s[0] != ']' {
      UpToBracketIs(s[1..]);
    }
  }

  lemma IdIsBefore(s: string)
    requires IdThenGap(s).Some?
    ensures IdBefore(s, IdThenGap(s).value.name, IdThenGap(s).value.rest)
  {
    var id, r := IdThenGap(s).value.name, IdThenGap(s).value.rest;
    UpToBracketIs(s[1..]);
    var tail := s[|id| + 2..];
    AfterGapIff(tail, r);
    hide AfterGap, Gap;
    var g :| Gap(g) && tail == g + r && Starts(r);
    assert s[1..][|id|] == ']';
    assert s == "[" + (id + ("]" + tail));
  }

  lemma IdIsRead(s: string, id: string, r: string)
    requires IdBefore(s, id, r)
    ensures IdThenGap(s) == Some(Field(id, r))
  {
    hide AfterGap;
    var g :| Gap(g) && s == "[" + (id + ("]" + (g + r))) && Starts(r);
    UpToBracketStops(id, g + r);
    assert s[1..] == id + ("]" + (g + r)) && s[|id| + 2..] == g + r;
    AfterGapIff(g + r, r);
  }

  lemma IdThenGapIff(s: string, id: string, r: string)
    ensures IdThenGap(s) == Some(Field(id, r)) <==> IdBefore(s, id, r)
  {
    hide IdThenGap, IdBefore;
    if IdThenGap(s) == Some(Field(id, r)) {
      IdIsBefore(s);
    }
    if IdBefore(s, id, r) {
      IdIsRead(s, id, r);
    }
  }

  /** Something, and nothing that breaks a line. */
  ghost predicate OnOneLine(s: string) {
    s != "" && forall c :: c in s ==> c !in {'\n', '\r', '\U{2028}', '\U{2029}'}
  }

  lemma OnOneLineIff(s: string)
    ensures LastField(s) <==> OnOneLine(s)
  {
    if LastField(s) {
      forall c | c in s
        ensures c !in {'\n', '\r', '\U{2028}', '\U{2029}'}
      {
        var i :| 0 <= i < |s| && s[i] == c;
      }
    }
    if OnOneLine(s) {
      forall i | 0 <= i < |s|
        ensures !LineTerminator(s[i])
      {
        assert s[i] in s;
      }
    }
  }

  // ---- Rows ----

  /** A row: an id, a source and a status, and on the same line a note. */
  ghost predicate PreviousReads(item: string, f: PreviousFinding, norm: string -> string) {
    exists note, a, b :: IdBefore(item, f.id, a) && NamedBefore(a, f.source, b) &&
      NamedBefore(b, StatusName(f.status), note) && OnOneLine(note) && f.note == norm(note) &&
      f.source in Sources && f.closureEvidence == Some(f.note)
  }

  lemma NamesUnique(name: string, status: ClosureStatus)
    ensures StatusNamed(name) == Some(status) <==> name == StatusName(status)
  {
    StatusNames(status);
  }

  lemma PreviousIsRead(item: string, norm: string -> string)
    requires ReadPrevious(item, norm).Some?
    ensures PreviousReads(item, ReadPrevious(item, norm).value, norm)
  {
    var f := ReadPrevious(item, norm).value;
    var id := IdThenGap(item).value;
    var source := NameThenBar(id.rest).value;
    var status := NameThenBar(source.rest).value;
    IdThenGapIff(item, id.name, id.rest);
    NameThenBarIff(id.rest, source.name, source.rest);
    NameThenBarIff(source.rest, status.name, status.rest);
    NamesUnique(status.name, f.status);
    OnOneLineIff(status.rest);
    hide IdBefore, NamedBefore, OnOneLine, IdThenGap, NameThenBar, LastField;
  }

  lemma ReadsPrevious(item: string, f: PreviousFinding, norm: string -> string)
    requires PreviousReads(item, f, norm)
    ensures ReadPrevious(item, norm) == Some(f)
  {
    hide IdBefore, NamedBefore, OnOneLine, IdThenGap, NameThenBar, LastField;
    var note, a, b :| IdBefore(item, f.id, a) && NamedBefore(a, f.source, b) &&
      NamedBefore(b, StatusName(f.status), note) && OnOneLine(note) && f.note == norm(note) &&
      f.source in Sources && f.closureEvidence == Some(f.note);
    IdThenGapIff(item, f.id, a);
    NameThenBarIff(a, f.source, b);
    NameThenBarIff(b, StatusName(f.status), note);
    NamesUnique(StatusName(f.status), f.status);
    OnOneLineIff(note);
  }

  lemma PreviousReadsIff(item: string, f: PreviousFinding, norm: string -> string)
    ensures ReadPrevious(item, norm) == Some(f) <==> PreviousReads(item, f, norm)
  {
    hide ReadPrevious, PreviousReads;
    if ReadPrevious(item, norm) == Some(f) {
      PreviousIsRead(item, norm);
    }
    if PreviousReads(item, f, norm) {
      ReadsPrevious(item, f, norm);
    }
  }

  /** A row: an id and a source, and on the same line a text. */
  ghost predicate BlockingReads(item: string, f: Finding, norm: string -> string) {
    exists text, a :: IdBefore(item, f.id, a) && NamedBefore(a, f.source, text) && OnOneLine(text) &&
      f.text == norm(text) && f.source in Sources && f == Plain(f.id, f.source, f.text)
  }

  lemma BlockingReadsIff(item: string, f: Finding, norm: string -> string)
    ensures ReadBlocking(item, norm) == Some(f) <==> BlockingReads(item, f, norm)
  {
    forall t
      ensures LastField(t) <==> OnOneLine(t)
    {
      OnOneLineIff(t);
    }
    if ReadBlocking(item, norm) == Some(f) {
      var id := IdThenGap(item).value;
      var source := NameThenBar(id.rest).value;
      IdThenGapIff(item, id.name, id.rest);
      NameThenBarIff(id.rest, source.name, source.rest);
    }
    if BlockingReads(item, f, norm) {
      var text, a :| IdBefore(item, f.id, a) && NamedBefore(a, f.source, text) && OnOneLine(text) &&
        f.text == norm(text) && f.source in Sources && f == Plain(f.id, f.source, f.text);
      IdThenGapIff(item, f.id, a);
      NameThenBarIff(a, f.source, text);
    }
  }

  /** A row: a source, and on the same line a text. */
  ghost predicate AdvisoryReads(item: string, a: Advisory, norm: string -> string) {
    exists text :: NamedBefore(item, a.source, text) && OnOneLine(text) && a.text == norm(text) && a.source in Sources
  }

  lemma AdvisoryReadsIff(item: string, a: Advisory, norm: string -> string)
    ensures ReadAdvisory(item, norm) == Some(a) <==> AdvisoryReads(item, a, norm)
  {
    forall t
      ensures LastField(t) <==> OnOneLine(t)
    {
      OnOneLineIff(t);
    }
    if ReadAdvisory(item, norm) == Some(a) {
      var source := NameThenBar(item).value;
      NameThenBarIff(item, source.name, source.rest);
    }
    if AdvisoryReads(item, a, norm) {
      var text :| NamedBefore(item, a.source, text) && OnOneLine(text) && a.text == norm(text) && a.source in Sources;
      NameThenBarIff(item, a.source, text);
    }
  }

  /** A row: a required area and a coverage status, and on the same line a note. */
  ghost predicate CoverageReads(item: string, c: Coverage, norm: string -> string) {
    exists note, a :: NamedBefore(item, c.area, a) && NamedBefore(a, c.status, note) && OnOneLine(note) &&
      c.note == norm(note) && c.area in RequiredAreas && c.status in CoverageStatuses
  }

  lemma CoverageReadsIff(item: string, c: Coverage, norm: string -> string)
    ensures ReadCoverage(item, norm) == Some(c) <==> CoverageReads(item, c, norm)
  {
    forall t
      ensures LastField(t) <==> OnOneLine(t)
    {
      OnOneLineIff(t);
    }
    if ReadCoverage(item, norm) == Some(c) {
      var area := NameThenBar(item).value;
      var status := NameThenBar(area.rest).value;
      NameThenBarIff(item, area.name, area.rest);
      NameThenBarIff(area.rest, status.name, status.rest);
    }
    if CoverageReads(item, c, norm) {
      var note, a :| NamedBefore(item, c.area, a) && NamedBefore(a, c.status, note) && OnOneLine(note) &&
        c.note == norm(note) && c.area in RequiredAreas && c.status in CoverageStatuses;
      NameThenBarIff(item, c.area, a);
      NameThenBarIff(a, c.status, note);
    }
  }
}
