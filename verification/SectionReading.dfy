/**
  Which lines a section has and which items a list has, without reading the lines in order
  (packages/agent/src/reviewContract.ts:113-163).
 */
module SectionReading {
  import opened Collections
  import opened ReviewText
  import opened ReviewWords
  import opened ReviewSections

  // ---- Sections ----

  predicate IsHeading(line: string) {
    StartsWith(line, Heading)
  }

  function NameOf(heading: string): string
    requires IsHeading(heading)
  {
    Trim(heading[3..])
  }

  /** The i-th line is a heading with the name. */
  predicate Names(lines: seq<string>, i: nat, name: string) {
    i < |lines| && IsHeading(lines[i]) && NameOf(lines[i]) == name
  }

  /** The name of the last heading among the first n lines. */
  function OpenAt(lines: seq<string>, n: nat): Option<string>
    requires n <= |lines|
  {
    if n == 0 then None
    else if IsHeading(lines[n - 1]) then Some(NameOf(lines[n - 1]))
    else OpenAt(lines, n - 1)
  }

  lemma {:induction false} OpenAtIff(lines: seq<string>, n: nat, name: string)
    requires n <= |lines|
    ensures OpenAt(lines, n) == Some(name) <==>
            exists i :: 0 <= i < n && Names(lines, i, name) && forall j :: i < j < n ==> !IsHeading(lines[j])
  {
    if n > 0 {
      OpenAtIff(lines, n - 1, name);
      if IsHeading(lines[n - 1]) && NameOf(lines[n - 1]) == name {
        assert Names(lines, n - 1, name);
      }
    }
  }

  /** The lines below headings with the name, in order. */
  function LinesUnder(lines: seq<string>, n: nat, name: string): seq<string>
    requires n <= |lines|
  {
    if n == 0 then []
    else LinesUnder(lines, n - 1, name) +
         if !IsHeading(lines[n - 1]) && OpenAt(lines, n - 1) == Some(name) then [lines[n - 1]] else []
  }

  ghost predicate HasHeading(lines: seq<string>, n: nat, name: string) {
    exists i :: 0 <= i < n && Names(lines, i, name)
  }

  ghost predicate HasTwo(lines: seq<string>, n: nat, name: string) {
    exists i, j :: 0 <= i < j < n && Names(lines, i, name) && Names(lines, j, name)
  }

  /** The scan says of the name what the lines say. */
  ghost predicate ScansNameAs(st: Scan, lines: seq<string>, n: nat, name: string)
    requires n <= |lines|
  {
    && (name in st.sections <==> HasHeading(lines, n, name))
    && (name in st.sections ==> st.sections[name] == if name == "" then [] else LinesUnder(lines, n, name))
    && (name in st.duplicates <==> HasTwo(lines, n, name))
  }

  ghost predicate ScansAs(st: Scan, lines: seq<string>, n: nat)
    requires n <= |lines|
  {
    && st.current == OpenAt(lines, n) && NoDuplicates(st.duplicates)
    && forall name :: ScansNameAs(st, lines, n, name)
  }

  lemma HeadingsMore(lines: seq<string>, n: nat, name: string)
    requires n < |lines|
    ensures HasHeading(lines, n + 1, name) <==> HasHeading(lines, n, name) || Names(lines, n, name)
    ensures HasTwo(lines, n + 1, name) <==>
            HasTwo(lines, n, name) || (HasHeading(lines, n, name) && Names(lines, n, name))
  {
  }

  lemma {:induction false} OpenHasHeading(lines: seq<string>, n: nat)
    requires n <= |lines| && OpenAt(lines, n).Some?
    ensures HasHeading(lines, n, OpenAt(lines, n).value)
  {
    OpenAtIff(lines, n, OpenAt(lines, n).value);
  }

  lemma {:induction false} NothingUnderMissing(lines: seq<string>, n: nat, name: string)
    requires n <= |lines| && !HasHeading(lines, n, name)
    ensures LinesUnder(lines, n, name) == []
  {
    if n > 0 {
      HeadingsMore(lines, n - 1, name);
      NothingUnderMissing(lines, n - 1, name);
      OpenAtIff(lines, n - 1, name);
    }
  }

  lemma HeadingScansAs(st: Scan, lines: seq<string>, n: nat, name: string)
    requires n < |lines| && IsHeading(lines[n]) && ScansNameAs(st, lines, n, name)
    ensures ScansNameAs(ScanLine(st, lines[n]), lines, n + 1, name)
  {
    hide Trim;
    HeadingsMore(lines, n, name);
    if !HasHeading(lines, n, name) {
      NothingUnderMissing(lines, n, name);
    }
    assert LinesUnder(lines, n, name) + [] == LinesUnder(lines, n, name);
    hide HasHeading, HasTwo;
  }

  lemma BodyScansAs(st: Scan, lines: seq<string>, n: nat, name: string)
    requires n < |lines| && !IsHeading(lines[n]) && ScansNameAs(st, lines, n, name)
    requires st.current == OpenAt(lines, n)
    ensures ScansNameAs(ScanLine(st, lines[n]), lines, n + 1, name)
  {
    HeadingsMore(lines, n, name);
    if OpenAt(lines, n) == Some(name) {
      OpenHasHeading(lines, n);
    }
    assert LinesUnder(lines, n, name) + [] == LinesUnder(lines, n, name);
    hide HasHeading, HasTwo;
  }

  lemma LineScansAs(st: Scan, lines: seq<string>, n: nat)
    requires n < |lines| && ScansAs(st, lines, n)
    ensures ScansAs(ScanLine(st, lines[n]), lines, n + 1)
  {
    hide ScansNameAs;
    var next, more := ScanLine(st, lines[n]), n + 1;
    forall name
      ensures ScansNameAs(next, lines, more, name)
    {
      assert ScansNameAs(st, lines, n, name);
      if IsHeading(lines[n]) {
        HeadingScansAs(st, lines, n, name);
      } else {
        BodyScansAs(st, lines, n, name);
      }
    }
  }

  lemma NothingScanned(lines: seq<string>)
    ensures ScansAs(NoSections, lines, 0)
  {
  }

  /** Each heading's section has exactly the lines below headings of its name, and repeated names are noted once. */
  lemma {:induction false} ScanIs(lines: seq<string>, n: nat)
    requires n <= |lines|
    ensures ScansAs(ScanLines(NoSections, lines[..n]), lines, n)
  {
    if n == 0 {
      assert lines[..0] == [];
      NothingScanned(lines);
    } else {
      hide ScansAs;
      ScanIs(lines, n - 1);
      ScanOneMore(NoSections, lines, n - 1);
      LineScansAs(ScanLines(NoSections, lines[..n - 1]), lines, n - 1);
    }
  }

  // ---- Lists ----

  predicate IsBlank(line: string) {
    Trim(line) == ""
  }

  predicate IsBullet(line: string) {
    StartsWith(Trim(line), Bullet)
  }

  /** The text of a bullet line. */
  function BulletText(line: string): string
    requires IsBullet(line)
  {
    Trim(Trim(line)[2..])
  }

  ghost predicate HasBullet(lines: seq<string>, n: nat)
    requires n <= |lines|
  {
    exists i :: 0 <= i < n && IsBullet(lines[i])
  }

  /** The i-th line spoils the list: a bullet without text, or text before any bullet. */
  ghost predicate Spoils(lines: seq<string>, i: nat)
    requires i < |lines|
  {
    if IsBullet(lines[i]) then BulletText(lines[i]) == ""
    else !IsBlank(lines[i]) && !HasBullet(lines, i)
  }

  function Bullets(lines: seq<string>, n: nat): nat
    requires n <= |lines|
  {
    if n == 0 then 0 else Bullets(lines, n - 1) + if IsBullet(lines[n - 1]) then 1 else 0
  }

  /** The words of the k-th bullet, counted from zero, with those of the lines that continue it. */
  function ItemWords(lines: seq<string>, n: nat, k: nat): seq<string>
    requires n <= |lines|
  {
    if n == 0 then []
    else ItemWords(lines, n - 1, k) +
         if IsBullet(lines[n - 1]) then (if Bullets(lines, n - 1) == k then Words(BulletText(lines[n - 1])) else [])
         else if Bullets(lines, n - 1) == k + 1 then Words(lines[n - 1]) else []
  }

  /** The items so far are the bullets so far, each with the words of its lines. */
  ghost predicate ItemsAs(items: seq<string>, lines: seq<string>, n: nat)
    requires n <= |lines|
  {
    |items| == Bullets(lines, n) && forall k :: 0 <= k < |items| ==> Words(items[k]) == ItemWords(lines, n, k)
  }

  lemma {:induction false} BulletsIff(lines: seq<string>, n: nat)
    requires n <= |lines|
    ensures Bullets(lines, n) > 0 <==> HasBullet(lines, n)
  {
    if n > 0 {
      BulletsIff(lines, n - 1);
    }
  }

  lemma {:induction false} WordsOfPair(a: string, b: string)
    ensures Words(a + " " + b) == Words(a) + Words(b)
  {
    if a == "" {
      assert a + " " + b == " " + b && (" " + b)[1..] == b;
    } else {
      assert (a + " " + b)[1..] == a[1..] + " " + b;
      WordsOfPair(a[1..], b);
      if |a| == 1 {
        assert a[1..] == "";
      }
    }
  }

  lemma {:induction false} NoWords(s: string)
    requires Trim(s) == ""
    ensures Words(s) == []
  {
    TrimKeepsWords(s);
  }

  lemma {:induction false} LaterBulletHasNoWords(lines: seq<string>, n: nat, k: nat)
    requires n <= |lines| && k >= Bullets(lines, n)
    ensures ItemWords(lines, n, k) == []
  {
    if n > 0 {
      LaterBulletHasNoWords(lines, n - 1, k);
    }
  }

  /** Items are trimmed and say something. */
  ghost predicate Neat(items: seq<string>) {
    forall k :: 0 <= k < |items| ==> items[k] != "" && Trimmed(items[k])
  }

  lemma BulletIsNotBlank(line: string)
    ensures IsBullet(line) ==> !IsBlank(line)
  {
  }

  lemma TrimIsTrimmed(s: string)
    ensures Trimmed(Trim(s))
  {
    var i, j := TrimIsPart(s);
    var k := SkipWhiteIsSuffix(s);
    var m := TrimEndIsPrefix(SkipWhite(s));
  }

  lemma BulletWords(line: string)
    requires IsBullet(line)
    ensures Words(BulletText(line)) == Words(Trim(line)[2..])
  {
    TrimKeepsWords(Trim(line)[2..]);
  }

  lemma NextBullet(items: seq<string>, lines: seq<string>, n: nat)
    requires n < |lines| && ItemsAs(items, lines, n) && Neat(items) && IsBullet(lines[n])
    ensures Spoils(lines, n) <==> AddLine(items, lines[n]).None?
    ensures !Spoils(lines, n) ==>
              AddLine(items, lines[n]) == Some(items + [BulletText(lines[n])]) &&
              ItemsAs(items + [BulletText(lines[n])], lines, n + 1) && Neat(items + [BulletText(lines[n])])
  {
    BulletIsNotBlank(lines[n]);
    LaterBulletHasNoWords(lines, n, |items|);
    TrimIsTrimmed(Trim(lines[n])[2..]);
    forall k | 0 <= k < |items|
      ensures ItemWords(lines, n + 1, k) == ItemWords(lines, n, k)
    {
      assert ItemWords(lines, n, k) + [] == ItemWords(lines, n, k);
    }
    hide Words, Trim, Collapse;
  }

  lemma {:induction false} VisibleEndHasWords(s: string)
    requires s != "" && !White(s[|s| - 1])
    ensures Words(s) != []
  {
    if White(s[0]) {
      VisibleEndHasWords(s[1..]);
    }
  }

  lemma ContinuedIsNeat(item: string, trimmed: string)
    requires item != "" && Trimmed(item)
    ensures var r := Collapse(item + " " + trimmed); r != "" && Trimmed(r)
  {
    CollapseKeepsWords(item + " " + trimmed);
    WordsOfPair(item, trimmed);
    VisibleEndHasWords(item);
  }

  lemma ContinuedWords(lines: seq<string>, n: nat, k: nat)
    requires n < |lines| && !IsBullet(lines[n])
    ensures Bullets(lines, n + 1) == Bullets(lines, n)
    ensures ItemWords(lines, n + 1, k) ==
            if Bullets(lines, n) == k + 1 then ItemWords(lines, n, k) + Words(lines[n]) else ItemWords(lines, n, k)
  {
    assert ItemWords(lines, n, k) + [] == ItemWords(lines, n, k);
  }

  lemma NextContinuation(items: seq<string>, lines: seq<string>, n: nat)
    requires n < |lines| && ItemsAs(items, lines, n) && Neat(items)
    requires !IsBullet(lines[n]) && !IsBlank(lines[n]) && items != []
    ensures var last := Collapse(items[|items| - 1] + " " + Trim(lines[n]));
      && AddLine(items, lines[n]) == Some(items[|items| - 1 := last])
      && ItemsAs(items[|items| - 1 := last], lines, n + 1) && Neat(items[|items| - 1 := last])
  {
    hide Words, Trim, Collapse, Trimmed, ItemWords, Bullets;
    var item := items[|items| - 1];
    ContinuedIsNeat(item, Trim(lines[n]));
    CollapseKeepsWords(item + " " + Trim(lines[n]));
    WordsOfPair(item, Trim(lines[n]));
    TrimKeepsWords(lines[n]);
    forall k | 0 <= k < |items|
      ensures Bullets(lines, n + 1) == Bullets(lines, n)
      ensures ItemWords(lines, n + 1, k) ==
              if k == |items| - 1 then ItemWords(lines, n, k) + Words(lines[n]) else ItemWords(lines, n, k)
    {
      ContinuedWords(lines, n, k);
    }
  }

  lemma NextBlank(items: seq<string>, lines: seq<string>, n: nat)
    requires n < |lines| && ItemsAs(items, lines, n) && IsBlank(lines[n])
    ensures AddLine(items, lines[n]) == Some(items) && ItemsAs(items, lines, n + 1) && !Spoils(lines, n)
  {
    BulletIsNotBlank(lines[n]);
    NoWords(lines[n]);
    forall k | 0 <= k < |items|
      ensures ItemWords(lines, n + 1, k) == ItemWords(lines, n, k)
    {
      assert ItemWords(lines, n, k) + [] == ItemWords(lines, n, k);
    }
  }

  lemma NextLine(items: seq<string>, lines: seq<string>, n: nat)
    requires n < |lines| && ItemsAs(items, lines, n) && Neat(items)
    ensures AddLine(items, lines[n]).None? <==> Spoils(lines, n)
    ensures AddLine(items, lines[n]).Some? ==>
              ItemsAs(AddLine(items, lines[n]).value, lines, n + 1) && Neat(AddLine(items, lines[n]).value)
  {
    BulletsIff(lines, n);
    BulletIsNotBlank(lines[n]);
    if IsBullet(lines[n]) {
      NextBullet(items, lines, n);
    } else if IsBlank(lines[n]) {
      NextBlank(items, lines, n);
    } else if items != [] {
      NextContinuation(items, lines, n);
    }
  }

  ghost predicate Spoiled(lines: seq<string>, n: nat)
    requires n <= |lines|
  {
    exists i :: 0 <= i < n && Spoils(lines, i)
  }

  /** What reading the first n lines gives. */
  ghost predicate ReadsAs(r: Option<seq<string>>, lines: seq<string>, n: nat)
    requires n <= |lines|
  {
    (r.None? <==> Spoiled(lines, n)) && (r.Some? ==> ItemsAs(r.value, lines, n) && Neat(r.value))
  }

  lemma SpoiledMore(lines: seq<string>, n: nat)
    requires n < |lines|
    ensures Spoiled(lines, n + 1) <==> Spoiled(lines, n) || Spoils(lines, n)
  {
  }

  lemma OneMoreRead(before: Option<seq<string>>, lines: seq<string>, n: nat)
    requires n < |lines| && ReadsAs(before, lines, n)
    ensures ReadsAs(if before.Some? then AddLine(before.value, lines[n]) else None, lines, n + 1)
  {
    SpoiledMore(lines, n);
    if before.Some? {
      NextLine(before.value, lines, n);
    }
    hide Spoiled, Spoils, ItemsAs, Neat, AddLine;
  }

  lemma LinesMore(lines: seq<string>, n: nat)
    requires n < |lines|
    ensures var before := AddLines([], lines[..n]);
      AddLines([], lines[..n + 1]) == if before.Some? then AddLine(before.value, lines[n]) else None
  {
    var before := AddLines([], lines[..n]);
    if before.Some? {
      AddOneMore(lines, n, before.value);
    } else {
      assert lines[..n + 1][..n] == lines[..n];
      AddFails(lines[..n + 1], n);
    }
  }

  /** A list fails at the first line that spoils it; otherwise its items are its bullets with what continues them. */
  lemma {:induction false} ItemsIff(lines: seq<string>, n: nat)
    requires n <= |lines|
    ensures ReadsAs(AddLines([], lines[..n]), lines, n)
  {
    if n == 0 {
      assert lines[..0] == [];
    } else {
      hide ReadsAs, AddLines, AddLine;
      ItemsIff(lines, n - 1);
      LinesMore(lines, n - 1);
      OneMoreRead(AddLines([], lines[..n - 1]), lines, n - 1);
    }
  }

  // ---- What a list gives ----

  lemma OneWordStep(s: string, w: string)
    requires |s| > 1 && !White(s[0]) && !White(s[1]) && Words(s) == [w]
    ensures w != "" && w[0] == s[0] && Words(s[1..]) == [w[1..]]
  {
    var rest := Words(s[1..]);
    var all := [[s[0]] + rest[0]] + rest[1..];
    assert all == [w] && |all| == |rest| && all[0] == [s[0]] + rest[0];
    assert w == [s[0]] + rest[0] && rest == [rest[0]];
  }

  lemma {:induction false} SoleWord(s: string, w: string)
    requires Trimmed(s) && s != "" && Words(s) == [w]
    ensures s == w
  {
    if |s| > 1 {
      VisibleEndHasWords(s[1..]);
      assert !White(s[1]);
      OneWordStep(s, w);
      SoleWord(s[1..], w[1..]);
      assert s == [s[0]] + s[1..] && w == [w[0]] + w[1..];
    } else {
      assert s == [s[0]];
    }
  }

  lemma {:induction false} OneRun(s: string)
    requires s != "" && forall i :: 0 <= i < |s| ==> !White(s[i])
    ensures Words(s) == [s]
  {
    if |s| > 1 {
      OneRun(s[1..]);
      assert s[1..][0] == s[1] && [s[0]] + s[1..] == s;
    } else {
      assert s[1..] == "" && s == [s[0]];
    }
  }

  /** None may be written in any case. */
  lemma NoneInAnyCase(s: string)
    ensures IsNone(s) <==> |s| == 4 && forall i :: 0 <= i < 4 ==> s[i] == "none"[i] || s[i] == "NONE"[i]
  {
    if |s| == 4 && forall i :: 0 <= i < 4 ==> s[i] == "none"[i] || s[i] == "NONE"[i] {
      assert s[0] == "none"[0] || s[0] == "NONE"[0];
      assert s[1] == "none"[1] || s[1] == "NONE"[1];
      assert s[2] == "none"[2] || s[2] == "NONE"[2];
      assert s[3] == "none"[3] || s[3] == "NONE"[3];
    }
  }

  /** The k-th item is the single word none. */
  ghost predicate SaysNone(lines: seq<string>, k: nat) {
    |ItemWords(lines, |lines|, k)| == 1 && IsNone(ItemWords(lines, |lines|, k)[0])
  }

  lemma NoneIff(item: string, words: seq<string>)
    requires item != "" && Trimmed(item) && Words(item) == words
    ensures IsNone(item) <==> |words| == 1 && IsNone(words[0])
  {
    if IsNone(item) {
      OneRun(item);
    }
    if |words| == 1 {
      SoleWord(item, words[0]);
    }
  }

  lemma CheckedIs(items: seq<string>)
    requires Neat(items)
    ensures var r := CheckedItems(items);
      && (r.None? <==> |items| >= 2 && exists k :: 0 <= k < |items| && IsNone(items[k]))
      && (r == Some([]) <==> items == [] || (|items| == 1 && IsNone(items[0])))
      && (r.Some? && r.value != [] ==> r.value == items)
  {
  }

  lemma NoneSaid(items: seq<string>, lines: seq<string>, k: nat)
    requires ItemsAs(items, lines, |lines|) && Neat(items) && k < |items|
    ensures IsNone(items[k]) <==> SaysNone(lines, k)
  {
    NoneIff(items[k], ItemWords(lines, |lines|, k));
  }

  /**
    A list is malformed exactly when a line spoils it or it says none beside other things; it is empty exactly when it
    has no bullets, or one that says none; and otherwise its items are its bullets, with what continues them.
   */
  lemma ListIs(lines: seq<string>)
    ensures var r := ListItems(lines); var bullets := Bullets(lines, |lines|);
      var spoiled := Spoiled(lines, |lines|);
      && (r.None? <==> spoiled || (bullets >= 2 && exists k :: 0 <= k < bullets && SaysNone(lines, k)))
      && (r == Some([]) <==> !spoiled && (bullets == 0 || (bullets == 1 && SaysNone(lines, 0))))
      && (r.Some? && r.value != [] ==> ItemsAs(r.value, lines, |lines|))
  {
    hide SaysNone, IsNone, Spoiled, AddLines, CheckedItems, Bullets, ItemWords, Words;
    assert lines[..|lines|] == lines;
    ItemsIff(lines, |lines|);
    var items := AddLines([], lines);
    if items.Some? {
      CheckedIs(items.value);
      forall k | 0 <= k < |items.value|
        ensures IsNone(items.value[k]) <==> SaysNone(lines, k)
      {
        NoneSaid(items.value, lines, k);
      }
    }
  }
}
