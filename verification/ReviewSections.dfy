/** Sections and bullet lists of review output (packages/agent/src/reviewContract.ts:113-163). */
module ReviewSections {
  import opened Collections
  import opened ReviewText

  const Heading := "## "
  const Bullet := "- "

  // ---- collectSectionData ----

  /** The sections so far, the names seen twice in the order they were, and the section that takes the next line. */
  datatype Scan = Scan(sections: map<string, seq<string>>, duplicates: seq<string>, current: Option<string>)

  /** A set that remembers insertion order takes the name once. */
  function AddOnce(names: seq<string>, name: string): seq<string> {
    if name in names then names else names + [name]
  }

  function ScanLine(st: Scan, line: string): Scan {
    if StartsWith(line, Heading) then
      var name := Trim(line[3..]);
      if name in st.sections then st.(duplicates := AddOnce(st.duplicates, name), current := Some(name))
      else st.(sections := st.sections[name := []], current := Some(name))
    else if st.current.Some? && st.current.value != "" && st.current.value in st.sections then
      st.(sections := st.sections[st.current.value := st.sections[st.current.value] + [line]])
    else st
  }

  function ScanLines(st: Scan, lines: seq<string>): Scan
    decreases |lines|
  {
    if lines == [] then st else ScanLines(ScanLine(st, lines[0]), lines[1..])
  }

  const NoSections := Scan(map[], [], None)

  lemma {:induction false} ScanConcat(st: Scan, a: seq<string>, b: seq<string>)
    ensures ScanLines(st, a + b) == ScanLines(ScanLines(st, a), b)
    decreases |a|
  {
    if a == [] {
      assert a + b == b;
    } else {
      assert (a + b)[1..] == a[1..] + b;
      ScanConcat(ScanLine(st, a[0]), a[1..], b);
    }
  }

  lemma ScanOneMore(st: Scan, lines: seq<string>, i: nat)
    requires i < |lines|
    ensures ScanLines(st, lines[..i + 1]) == ScanLine(ScanLines(st, lines[..i]), lines[i])
  {
    assert lines[..i + 1] == lines[..i] + [lines[i]];
    ScanConcat(st, lines[..i], [lines[i]]);
    var before := ScanLines(st, lines[..i]);
    assert ScanLines(before, [lines[i]]) == ScanLines(ScanLine(before, lines[i]), []);
  }

  method CollectSectionData(text: string) returns (sections: map<string, seq<string>>, duplicateNames: seq<string>)
    ensures sections == ScanLines(NoSections, Lines(text)).sections
    ensures duplicateNames == ScanLines(NoSections, Lines(text)).duplicates
  {
    sections, duplicateNames := map[], [];
    var current: Option<string> := None;
    var lines := Lines(text);
    for i := 0 to |lines|
      invariant Scan(sections, duplicateNames, current) == ScanLines(NoSections, lines[..i])
    {
      ScanOneMore(NoSections, lines, i);
      var line := lines[i];
      if StartsWith(line, Heading) {
        var name := Trim(line[3..]);
        current := Some(name);
        if name in sections {
          duplicateNames := AddOnce(duplicateNames, name);
          continue;
        }
        sections := sections[name := []];
        continue;
      }
      if current.Some? && current.value != "" {
        if current.value in sections {
          sections := sections[current.value := sections[current.value] + [line]];
        }
      }
    }
    assert lines[..|lines|] == lines;
  }

  /** A heading and the lines below it. */
  datatype Block = Block(name: string, body: seq<string>)

  function BlockLines(b: Block): seq<string> {
    [Heading + b.name] + b.body
  }

  ghost predicate PlainBody(body: seq<string>) {
    forall i :: 0 <= i < |body| ==> !StartsWith(body[i], Heading)
  }

  lemma {:induction false} ScanBody(st: Scan, name: string, body: seq<string>)
    requires st.current == Some(name) && name != "" && name in st.sections
    requires PlainBody(body)
    ensures ScanLines(st, body) == st.(sections := st.sections[name := st.sections[name] + body])
    decreases |body|
  {
    if body == [] {
      assert st.sections[name] + body == st.sections[name];
      assert st.sections[name := st.sections[name]] == st.sections;
    } else {
      var next := ScanLine(st, body[0]);
      ScanBody(next, name, body[1..]);
      assert st.sections[name] + body == next.sections[name] + body[1..];
    }
  }

  /** A block with a new name becomes one section. */
  lemma ScanBlock(st: Scan, b: Block)
    requires b.name != "" && Trimmed(b.name) && b.name !in st.sections
    requires PlainBody(b.body)
    ensures ScanLines(st, BlockLines(b)) == Scan(st.sections[b.name := b.body], st.duplicates, Some(b.name))
  {
    var line := Heading + b.name;
    assert line[..3] == Heading && line[3..] == b.name;
    TrimTrimmed(b.name);
    var next := ScanLine(st, line);
    assert BlockLines(b)[1..] == b.body;
    ScanBody(next, b.name, b.body);
    assert next.sections[b.name] + b.body == b.body;
  }

  // ---- normalizeListSection ----

  /** "none" in any capitalization. */
  predicate IsNone(item: string) {
    && |item| == 4
    && item[0] in {'n', 'N'} && item[1] in {'o', 'O'} && item[2] in {'n', 'N'} && item[3] in {'e', 'E'}
  }

  /** The items after one more line; a continuation line joins the last item. */
  function AddLine(items: seq<string>, line: string): Option<seq<string>> {
    var trimmed := Trim(line);
    if trimmed == "" then Some(items)
    else if StartsWith(trimmed, Bullet) then
      var item := Trim(trimmed[2..]);
      if item == "" then None else Some(items + [item])
    else if items == [] then None
    else Some(items[|items| - 1 := Collapse(items[|items| - 1] + " " + trimmed)])
  }

  function AddLines(items: seq<string>, lines: seq<string>): Option<seq<string>>
    decreases |lines|
  {
    if lines == [] then Some(items)
    else
      var next := AddLine(items, lines[0]);
      if next.None? then None else AddLines(next.value, lines[1..])
  }

  /** A single "none" is an empty list; anywhere else it is malformed, like an empty item. */
  function CheckedItems(items: seq<string>): Option<seq<string>> {
    if items == [] then Some([])
    else if |items| == 1 && IsNone(items[0]) then Some([])
    else if exists i :: 0 <= i < |items| && (items[i] == "" || IsNone(items[i])) then None
    else Some(items)
  }

  function ListItems(lines: seq<string>): Option<seq<string>> {
    var items := AddLines([], lines);
    if items.None? then None else CheckedItems(items.value)
  }

  lemma {:induction false} AddLinesSplit(items: seq<string>, a: seq<string>, b: seq<string>)
    ensures AddLines(items, a + b) ==
            var first := AddLines(items, a); if first.None? then None else AddLines(first.value, b)
    decreases |a|
  {
    if a == [] {
      assert a + b == b;
    } else {
      assert (a + b)[1..] == a[1..] + b;
      var next := AddLine(items, a[0]);
      if next.Some? {
        AddLinesSplit(next.value, a[1..], b);
      }
    }
  }

  lemma AddSingle(items: seq<string>, line: string)
    ensures AddLines(items, [line]) == AddLine(items, line)
  {
    assert [line][1..] == [];
    var next := AddLine(items, line);
    if next.Some? {
      assert AddLines(next.value, []) == next;
    }
  }

  lemma AddOneMore(lines: seq<string>, i: nat, items: seq<string>)
    requires i < |lines|
    requires AddLines([], lines[..i]) == Some(items)
    ensures AddLines([], lines[..i + 1]) == AddLine(items, lines[i])
  {
    assert lines[..i + 1] == lines[..i] + [lines[i]];
    AddLinesSplit([], lines[..i], [lines[i]]);
    AddSingle(items, lines[i]);
  }

  lemma AddFails(lines: seq<string>, i: nat)
    requires i <= |lines|
    requires AddLines([], lines[..i]).None?
    ensures AddLines([], lines).None?
  {
    assert lines == lines[..i] + lines[i..];
    AddLinesSplit([], lines[..i], lines[i..]);
  }

  method NormalizeListSection(lines: seq<string>) returns (result: Option<seq<string>>)
    ensures result == ListItems(lines)
  {
    var items: seq<string> := [];
    for i := 0 to |lines|
      invariant AddLines([], lines[..i]) == Some(items)
    {
      AddOneMore(lines, i, items);
      var trimmed := Trim(lines[i]);
      if trimmed == "" {
        continue;
      }
      if StartsWith(trimmed, Bullet) {
        var item := Trim(trimmed[2..]);
        if item == "" {
          AddFails(lines, i + 1);
          return None;
        }
        items := items + [item];
        continue;
      }
      if items == [] {
        AddFails(lines, i + 1);
        return None;
      }
      items := items[|items| - 1 := Collapse(items[|items| - 1] + " " + trimmed)];
    }
    assert lines[..|lines|] == lines;
    return CheckedItems(items);
  }

  /** An item that a bullet row keeps as it is. */
  predicate PlainItem(item: string) {
    item != "" && Trimmed(item) && !IsNone(item)
  }

  ghost predicate PlainItems(items: seq<string>) {
    forall i :: 0 <= i < |items| ==> PlainItem(items[i])
  }

  function BulletRow(item: string): string {
    Bullet + item
  }

  function BulletRows(items: seq<string>): seq<string> {
    Map(items, (item: string) => BulletRow(item))
  }

  /** The rows of a section as the printer writes them. */
  function ListRows(items: seq<string>): seq<string> {
    if items == [] then [BulletRow("none")] else BulletRows(items)
  }

  /** The rows with the blank line after the section. */
  function SectionRows(items: seq<string>): seq<string> {
    ListRows(items) + [""]
  }

  lemma AddBullet(items: seq<string>, item: string)
    requires item != "" && Trimmed(item)
    ensures AddLine(items, BulletRow(item)) == Some(items + [item])
  {
    var row := BulletRow(item);
    assert row[0] == '-' && row[|row| - 1] == item[|item| - 1];
    TrimTrimmed(row);
    assert row[..2] == Bullet && row[2..] == item;
    TrimTrimmed(item);
  }

  lemma {:induction false} AddBullets(before: seq<string>, rows: seq<string>, items: seq<string>)
    requires |rows| == |items| && forall i :: 0 <= i < |rows| ==> rows[i] == BulletRow(items[i])
    requires PlainItems(items)
    ensures AddLines(before, rows) == Some(before + items)
    decreases |items|
  {
    hide AddLine, BulletRow;
    if items == [] {
      assert before + items == before;
    } else {
      var next := before + [items[0]];
      assert PlainItem(items[0]);
      AddBullet(before, items[0]);
      AddBullets(next, rows[1..], items[1..]);
      assert next + items[1..] == before + items;
    }
  }

  lemma AddBlank(items: seq<string>)
    ensures AddLines(items, [""]) == Some(items)
  {
    AddSingle(items, "");
  }

  lemma RowsThenBlank(rows: seq<string>, items: seq<string>)
    requires AddLines([], rows) == Some(items)
    ensures ListItems(rows + [""]) == CheckedItems(items)
  {
    AddLinesSplit([], rows, [""]);
    AddBlank(items);
  }

  /** Reading the rows that were printed gives the items back, with or without the blank line. */
  lemma ListItemsOfRows(items: seq<string>)
    requires PlainItems(items)
    ensures ListItems(SectionRows(items)) == Some(items)
    ensures ListItems(ListRows(items)) == Some(items)
  {
    if items == [] {
      AddBullet([], "none");
      AddSingle([], BulletRow("none"));
      assert [] + ["none"] == ["none"];
      RowsThenBlank([BulletRow("none")], ["none"]);
    } else {
      AddBullets([], BulletRows(items), items);
      assert [] + items == items;
      RowsThenBlank(BulletRows(items), items);
    }
  }
}
