/**
  The rows of canonical review comments: how they are written and how they are read
  (packages/agent/src/reviewContract.ts:95-106, 694-768, 1098-1142, 1169-1254).

  A pattern's \s+ takes all whitespace there is, and a name in it is followed by whitespace, so reading a
  name is taking everything up to the next whitespace.
 */
module ReviewRows {
  import opened Collections
  import opened ReviewText
  import opened ReviewFindings

  const Sources: set<string> := {
    "code_review", "security_audit", "review_gate", "correctness", "security_data_loss",
    "regression_api_contract", "audit_evidence"}

  const RequiredAreas: seq<string> :=
    ["secret_leaks", "permissions_sandbox", "unsafe_shell_network_file", "dependency_config"]

  const CoverageStatuses: set<string> := {"covered", "issue_found", "not_applicable", "not_checked"}

  function StatusName(status: ClosureStatus): string {
    match status
    case Resolved => "resolved"
    case StillBlocking => "still_blocking"
    case NewBlocker => "new_blocker"
    case NotReproducible => "not_reproducible"
    case ManualReviewRequired => "manual_review_required"
  }

  function StatusNamed(name: string): Option<ClosureStatus> {
    if name == "resolved" then Some(Resolved)
    else if name == "still_blocking" then Some(StillBlocking)
    else if name == "new_blocker" then Some(NewBlocker)
    else if name == "not_reproducible" then Some(NotReproducible)
    else if name == "manual_review_required" then Some(ManualReviewRequired)
    else None
  }

  lemma StatusNames(status: ClosureStatus)
    ensures StatusNamed(StatusName(status)) == Some(status)
  {
    assert |"resolved"| == 8 && |"still_blocking"| == 14 && |"new_blocker"| == 11 && |"not_reproducible"| == 16
      && |"manual_review_required"| == 22;
  }

  datatype Advisory = Advisory(source: string, text: string)

  datatype Coverage = Coverage(area: string, status: string, note: string)

  // ---- Pieces of a row ----

  /** A name as it may stand between two gaps. */
  predicate Name(s: string) {
    s != "" && forall i :: 0 <= i < |s| ==> !White(s[i])
  }

  predicate Lower(s: string) {
    s != "" && forall i :: 0 <= i < |s| ==> 'a' <= s[i] <= 'z' || s[i] == '_'
  }

  lemma LowerIsName(s: string)
    requires Lower(s)
    ensures Name(s)
  {
  }

  function Word(s: string): (w: string)
    ensures |w| <= |s| && w == s[..|w|]
  {
    if s == "" || White(s[0]) then "" else [s[0]] + Word(s[1..])
  }

  /** The text after a non-empty run of whitespace. */
  function AfterGap(s: string): Option<string> {
    if s != "" && White(s[0]) then Some(SkipWhite(s)) else None
  }

  /** The text after a gap, a bar and another gap. */
  function AfterBar(s: string): Option<string> {
    var bar := AfterGap(s);
    if bar.None? || bar.value == "" || bar.value[0] != '|' then None else AfterGap(bar.value[1..])
  }

  datatype Field = Field(name: string, rest: string)

  /** A name and the text after the bar that follows it. */
  function NameThenBar(s: string): Option<Field> {
    var name := Word(s);
    var rest := AfterBar(s[|name|..]);
    if name == "" || rest.None? then None else Some(Field(name, rest.value))
  }

  /** The text before the first closing bracket. */
  function UpToBracket(s: string): (r: string)
    ensures |r| <= |s| && r == s[..|r|]
  {
    if s == "" || s[0] == ']' then "" else [s[0]] + UpToBracket(s[1..])
  }

  /** A bracketed id and the text after the gap that follows it. */
  function IdThenGap(s: string): Option<Field> {
    if s == "" || s[0] != '[' then None
    else
      var id := UpToBracket(s[1..]);
      if id == "" || |s| <= |id| + 1 then None
      else
        var rest := AfterGap(s[|id| + 2..]);
        if rest.None? then None else Some(Field(id, rest.value))
  }

  /** A row's last field: something, on one line. */
  predicate LastField(s: string) {
    s != "" && forall i :: 0 <= i < |s| ==> !LineTerminator(s[i])
  }

  /** A name, a bar and the last field. */
  function OneName(s: string): Option<Field> {
    var first := NameThenBar(s);
    if first.None? || !LastField(first.value.rest) then None else first
  }

  datatype TwoFields = TwoFields(first: string, second: string, rest: string)

  /** Two names, each with a bar, and the last field. */
  function TwoNames(s: string): Option<TwoFields> {
    var first := NameThenBar(s);
    if first.None? then None
    else
      var second := OneName(first.value.rest);
      if second.None? then None else Some(TwoFields(first.value.name, second.value.name, second.value.rest))
  }

  // ---- Reading rows ----

  function ReadPrevious(item: string, norm: string -> string): Option<PreviousFinding> {
    var id := IdThenGap(item);
    if id.None? then None
    else
      var fields := TwoNames(id.value.rest);
      if fields.None? || fields.value.first !in Sources || StatusNamed(fields.value.second).None? then None
      else
        var note := norm(fields.value.rest);
        Some(PreviousFinding(id.value.name, fields.value.first, StatusNamed(fields.value.second).value, note, Some(note)))
  }

  function Plain(id: string, source: string, text: string): Finding {
    Finding(id, source, text, None, None, NoDetails, None, None, None)
  }

  function ReadBlocking(item: string, norm: string -> string): Option<Finding> {
    var id := IdThenGap(item);
    if id.None? then None
    else
      var source := OneName(id.value.rest);
      if source.None? || source.value.name !in Sources then None
      else Some(Plain(id.value.name, source.value.name, norm(source.value.rest)))
  }

  function ReadAdvisory(item: string, norm: string -> string): Option<Advisory> {
    var source := OneName(item);
    if source.None? || source.value.name !in Sources then None
    else Some(Advisory(source.value.name, norm(source.value.rest)))
  }

  function ReadCoverage(item: string, norm: string -> string): Option<Coverage> {
    var fields := TwoNames(item);
    if fields.None? || fields.value.first !in RequiredAreas || fields.value.second !in CoverageStatuses then None
    else Some(Coverage(fields.value.first, fields.value.second, norm(fields.value.rest)))
  }

  // ---- Writing rows (without the bullet) ----

  function Barred(name: string, rest: string): string {
    name + " | " + rest
  }

  function Bracketed(id: string, rest: string): string {
    "[" + id + "] " + rest
  }

  function PreviousItem(f: PreviousFinding, norm: string -> string): string {
    Bracketed(f.id, Barred(f.source, Barred(StatusName(f.status), norm(f.note))))
  }

  function BlockingItem(f: Finding, norm: string -> string): string {
    Bracketed(f.id, Barred(f.source, norm(f.text)))
  }

  function AdvisoryItem(a: Advisory, norm: string -> string): string {
    Barred(a.source, norm(a.text))
  }

  function CoverageItem(c: Coverage, norm: string -> string): string {
    Barred(c.area, Barred(c.status, norm(c.note)))
  }

  // ---- Reading back what was written ----

  /** A text that starts and ends with something visible, as every field but an id does. */
  predicate Visible(s: string) {
    s != "" && !White(s[0]) && !White(s[|s| - 1])
  }

  /** An item that a bullet row carries unharmed: one line, visible at both ends, and longer than "none". */
  predicate RowItem(s: string) {
    Visible(s) && '\n' !in s && |s| > 4
  }

  /** An id that a bracketed field can hold. */
  predicate PlainId(id: string) {
    id != "" && ']' !in id && '\n' !in id
  }

  lemma {:induction false} WordStops(name: string, rest: string)
    requires forall i :: 0 <= i < |name| ==> !White(name[i])
    requires rest != "" && White(rest[0])
    ensures Word(name + rest) == name
  {
    if name == "" {
      assert name + rest == rest;
    } else {
      assert (name + rest)[1..] == name[1..] + rest;
      WordStops(name[1..], rest);
    }
  }

  lemma SpaceThen(rest: string)
    requires Visible(rest)
    ensures AfterGap(" " + rest) == Some(rest)
  {
    assert (" " + rest)[1..] == rest;
    assert SkipWhite(rest) == rest;
  }

  lemma BarThen(rest: string)
    requires Visible(rest)
    ensures AfterBar(" | " + rest) == Some(rest)
  {
    assert " | " + rest == " " + ("| " + rest);
    SpaceThen("| " + rest);
    assert ("| " + rest)[1..] == " " + rest;
    SpaceThen(rest);
  }

  lemma BarredEnds(name: string, rest: string)
    requires Name(name) && Visible(rest)
    ensures Visible(Barred(name, rest)) && |Barred(name, rest)| > 4
  {
    var s := Barred(name, rest);
    assert s[0] == name[0] && s[|s| - 1] == rest[|rest| - 1];
  }

  lemma ReadBarred(name: string, rest: string)
    requires Name(name) && Visible(rest)
    ensures NameThenBar(Barred(name, rest)) == Some(Field(name, rest))
    ensures Visible(Barred(name, rest))
  {
    BarredEnds(name, rest);
    assert Barred(name, rest) == name + (" | " + rest);
    WordStops(name, " | " + rest);
    assert Barred(name, rest)[|name|..] == " | " + rest;
    BarThen(rest);
  }

  lemma {:induction false} BracketStops(id: string, rest: string)
    requires ']' !in id
    ensures UpToBracket(id + "]" + rest) == id
  {
    if id == "" {
      assert (id + "]" + rest)[0] == ']';
    } else {
      assert (id + "]" + rest)[1..] == id[1..] + "]" + rest;
      BracketStops(id[1..], rest);
    }
  }

  lemma ReadBracketed(id: string, rest: string)
    requires PlainId(id) && RowItem(rest)
    ensures IdThenGap(Bracketed(id, rest)) == Some(Field(id, rest))
    ensures RowItem(Bracketed(id, rest))
  {
    var s := Bracketed(id, rest);
    BracketStops(id, " " + rest);
    assert s[1..] == id + "]" + (" " + rest);
    assert s[|id| + 2..] == " " + rest;
    SpaceThen(rest);
    assert s[0] == '[' && s[|s| - 1] == rest[|rest| - 1];
  }

  lemma ReadOneName(name: string, text: string)
    requires Name(name) && OneRow(text) && text != ""
    ensures OneName(Barred(name, text)) == Some(Field(name, text))
    ensures RowItem(Barred(name, text))
  {
    ReadBarred(name, text);
    BarredEnds(name, text);
    assert '\n' !in name && '\n' !in text;
  }

  lemma ReadTwoNames(first: string, second: string, text: string)
    requires Name(first) && Name(second) && OneRow(text) && text != ""
    ensures TwoNames(Barred(first, Barred(second, text))) == Some(TwoFields(first, second, text))
    ensures RowItem(Barred(first, Barred(second, text)))
  {
    ReadOneName(second, text);
    ReadBarred(first, Barred(second, text));
    BarredEnds(first, Barred(second, text));
    assert '\n' !in first;
  }

  lemma StatusIsName(status: ClosureStatus)
    ensures Name(StatusName(status))
  {
    assert Lower(StatusName(status));
    LowerIsName(StatusName(status));
  }

  lemma SourceIsName(source: string)
    requires source in Sources
    ensures Name(source)
  {
    assert Lower(source);
    LowerIsName(source);
  }

  lemma AreaIsName(area: string)
    requires area in RequiredAreas
    ensures Name(area)
  {
    assert Lower(area);
    LowerIsName(area);
  }

  lemma CoverageStatusIsName(status: string)
    requires status in CoverageStatuses
    ensures Name(status)
  {
    assert Lower(status);
    LowerIsName(status);
  }

  lemma ReadPreviousItem(f: PreviousFinding, norm: string -> string)
    requires Normalizes(norm)
    requires PlainId(f.id) && f.source in Sources && norm(f.note) != ""
    ensures ReadPrevious(PreviousItem(f, norm), norm) ==
            Some(f.(note := norm(f.note), closureEvidence := Some(norm(f.note))))
    ensures RowItem(PreviousItem(f, norm))
  {
    StatusNames(f.status);
    StatusIsName(f.status);
    SourceIsName(f.source);
    ReadTwoNames(f.source, StatusName(f.status), norm(f.note));
    ReadBracketed(f.id, Barred(f.source, Barred(StatusName(f.status), norm(f.note))));
  }

  lemma ReadBlockingItem(f: Finding, norm: string -> string)
    requires Normalizes(norm)
    requires PlainId(f.id) && f.source in Sources && norm(f.text) != ""
    ensures ReadBlocking(BlockingItem(f, norm), norm) == Some(Plain(f.id, f.source, norm(f.text)))
    ensures RowItem(BlockingItem(f, norm))
  {
    SourceIsName(f.source);
    ReadOneName(f.source, norm(f.text));
    ReadBracketed(f.id, Barred(f.source, norm(f.text)));
  }

  lemma ReadAdvisoryItem(a: Advisory, norm: string -> string)
    requires Normalizes(norm)
    requires a.source in Sources && norm(a.text) != ""
    ensures ReadAdvisory(AdvisoryItem(a, norm), norm) == Some(Advisory(a.source, norm(a.text)))
    ensures RowItem(AdvisoryItem(a, norm))
  {
    SourceIsName(a.source);
    ReadOneName(a.source, norm(a.text));
  }

  lemma ReadCoverageItem(c: Coverage, norm: string -> string)
    requires Normalizes(norm)
    requires c.area in RequiredAreas && c.status in CoverageStatuses && norm(c.note) != ""
    ensures ReadCoverage(CoverageItem(c, norm), norm) == Some(c.(note := norm(c.note)))
    ensures RowItem(CoverageItem(c, norm))
  {
    AreaIsName(c.area);
    CoverageStatusIsName(c.status);
    ReadTwoNames(c.area, c.status, norm(c.note));
  }
}
