/**
  A stable JSON text is a JSON text of the value it was printed from, by the grammar of sections 2 to 7 of RFC 8259
  without insignificant whitespace (packages/agent/src/coordinator.ts:2536-2547).
 */
module StableJsonText {
  import opened StableJson
  import opened StableJsonUnique

  // ---- The grammar ----

  function DigitValue(c: char): int {
    if '0' <= c <= '9' then c as int - '0' as int
    else if 'a' <= c <= 'f' then c as int - 'a' as int + 10
    else if 'A' <= c <= 'F' then c as int - 'A' as int + 10
    else -1
  }

  /** A backslash and the letter that stands for the character. */
  predicate ShortEscape(p: string, c: char) {
    && |p| == 2 && p[0] == '\\'
    && ((p[1] == c && (c == '"' || c == '\\' || c == '/')) || (p[1] == 'b' && c as int == 8) ||
        (p[1] == 'f' && c as int == 12) || (p[1] == 'n' && c as int == 10) || (p[1] == 'r' && c as int == 13) ||
        (p[1] == 't' && c as int == 9))
  }

  /** The character's number in four hexadecimal digits. */
  predicate LongEscape(p: string, c: char) {
    && |p| == 6 && p[0] == '\\' && p[1] == 'u' && (forall i :: 2 <= i < 6 ==> DigitValue(p[i]) >= 0)
    && c as int == ((DigitValue(p[2]) * 16 + DigitValue(p[3])) * 16 + DigitValue(p[4])) * 16 + DigitValue(p[5])
  }

  predicate CharReads(p: string, c: char) {
    (p == [c] && c != '"' && c != '\\' && c as int >= 32) || ShortEscape(p, c) || LongEscape(p, c)
  }

  ghost predicate CharsRead(body: string, t: string)
    decreases |t|
  {
    if t == "" then body == ""
    else exists n :: 0 <= n <= |body| && CharReads(body[..n], t[0]) && CharsRead(body[n..], t[1..])
  }

  ghost predicate StringReads(s: string, t: string) {
    |s| >= 2 && s[0] == '"' && s[|s| - 1] == '"' && CharsRead(s[1..|s| - 1], t)
  }

  ghost predicate Reads(s: string, m: Meaning)
    decreases |s|, 1
  {
    match m
    case MNull => s == "null"
    case MBool(b) => s == if b then "true" else "false"
    case MNum(token) => s == token
    case MStr(t) => StringReads(s, t)
    case MArr(items) => |s| >= 2 && s[0] == '[' && s[|s| - 1] == ']' && ItemsRead(s[1..|s| - 1], items)
    case MObj(fields) => |s| >= 2 && s[0] == '{' && s[|s| - 1] == '}' && MembersRead(s[1..|s| - 1], fields)
  }

  ghost predicate ItemsRead(s: string, items: seq<Meaning>)
    decreases |s|, 2
  {
    if items == [] then s == ""
    else if |items| == 1 then Reads(s, items[0])
    else exists n :: 0 <= n < |s| && s[n] == ',' && Reads(s[..n], items[0]) && ItemsRead(s[n + 1..], items[1..])
  }

  ghost predicate MemberReads(s: string, key: string, m: Meaning)
    decreases |s|, 2
  {
    exists n :: 0 <= n < |s| && s[n] == ':' && StringReads(s[..n], key) && Reads(s[n + 1..], m)
  }

  /** The members, in any order. */
  ghost predicate MembersRead(s: string, fields: map<string, Meaning>)
    decreases |s|, 4
  {
    if fields == map[] then s == ""
    else
      exists key :: key in fields && MembersReadFrom(s, fields, key)
  }

  ghost predicate MembersReadFrom(s: string, fields: map<string, Meaning>, key: string)
    requires key in fields
    decreases |s|, 3
  {
    if fields == map[key := fields[key]] then MemberReads(s, key, fields[key])
    else exists n :: 0 <= n < |s| && s[n] == ',' && MemberReads(s[..n], key, fields[key]) &&
           MembersRead(s[n + 1..], fields - {key})
  }

  // ---- Printed texts are such texts ----

  lemma EscapeReads(c: char)
    ensures CharReads(Escape(c), c)
  {
    var p := Escape(c);
    if c < ' ' && |p| == 6 {
      assert DigitValue(p[2]) == 0 && DigitValue(p[3]) == 0;
      assert DigitValue(p[4]) == c as int / 16 && DigitValue(p[5]) == c as int % 16;
    }
  }

  lemma {:induction false} EscapesRead(t: string)
    ensures CharsRead(EscapeAll(t), t)
  {
    if t != "" {
      EscapeReads(t[0]);
      EscapesRead(t[1..]);
      var n := |Escape(t[0])|;
      assert EscapeAll(t)[..n] == Escape(t[0]) && EscapeAll(t)[n..] == EscapeAll(t[1..]);
    }
  }

  lemma QuoteReads(t: string)
    ensures StringReads(Quote(t), t)
  {
    EscapesRead(t);
    assert Quote(t)[1..|Quote(t)| - 1] == EscapeAll(t);
  }

  lemma {:induction false} PrintReads(j: Json, leq: Order)
    requires WellFormed(j)
    ensures Reads(Print(j, leq), Denote(j))
    decreases Size(j), 0
  {
    match j
    case Str(t) => QuoteReads(t);
    case Arr(items) =>
      ItemsPrintRead(items, leq);
      assert Print(j, leq)[1..|Print(j, leq)| - 1] == PrintItems(items, leq);
    case Obj(fields) =>
      SortSize(fields, leq);
      SortMeans(fields, leq);
      FieldsPrintRead(Sort(fields, leq), leq);
      assert Print(j, leq)[1..|Print(j, leq)| - 1] == PrintFields(Sort(fields, leq), leq);
    case _ =>
  }

  lemma {:induction false} ItemsPrintRead(items: seq<Json>, leq: Order)
    requires WellFormedItems(items)
    ensures ItemsRead(PrintItems(items, leq), DenoteItems(items))
    decreases ItemsSize(items) + 1, |items|
  {
    if items != [] {
      PrintReads(items[0], leq);
      if |items| == 1 {
        assert DenoteItems(items) == [Denote(items[0])];
      } else {
        ItemsPrintRead(items[1..], leq);
        var s, n := PrintItems(items, leq), |Print(items[0], leq)|;
        assert s[..n] == Print(items[0], leq) && s[n] == ',' && s[n + 1..] == PrintItems(items[1..], leq);
        assert DenoteItems(items)[1..] == DenoteItems(items[1..]);
      }
    }
  }

  lemma {:induction false} FieldPrintReads(f: Field, leq: Order)
    requires WellFormed(f.value)
    ensures MemberReads(PrintField(f, leq), f.key, Denote(f.value))
    decreases Size(f.value), 1
  {
    QuoteReads(f.key);
    PrintReads(f.value, leq);
    var s, n := PrintField(f, leq), |Quote(f.key)|;
    assert s[..n] == Quote(f.key) && s[n] == ':' && s[n + 1..] == Print(f.value, leq);
  }

  lemma SoleMemberReads(s: string, key: string, m: Meaning)
    requires MemberReads(s, key, m)
    ensures MembersRead(s, map[key := m])
  {
    hide MemberReads;
    assert MembersReadFrom(s, map[key := m], key);
  }

  lemma FirstMemberReads(head: string, tail: string, fields: map<string, Meaning>, key: string)
    requires key in fields && MemberReads(head, key, fields[key])
    requires fields - {key} != map[] && MembersRead(tail, fields - {key})
    ensures MembersRead(head + "," + tail, fields)
  {
    hide MemberReads;
    var s, n := head + "," + tail, |head|;
    assert s[..n] == head && s[n] == ',' && s[n + 1..] == tail;
    assert fields != map[key := fields[key]];
    assert MembersReadFrom(s, fields, key);
  }

  lemma {:induction false} FieldsPrintRead(fields: seq<Field>, leq: Order)
    requires DistinctKeys(fields) && WellFormedFields(fields)
    ensures MembersRead(PrintFields(fields, leq), DenoteFields(fields))
    decreases FieldsSize(fields) + 1, |fields|
  {
    if fields != [] {
      hide MembersRead, MemberReads;
      var f, rest, m := fields[0], fields[1..], DenoteFields(fields);
      HeadAndTail(fields);
      FieldPrintReads(f, leq);
      if |fields| == 1 {
        assert rest == [] && m == map[f.key := Denote(f.value)];
        SoleMemberReads(PrintField(f, leq), f.key, Denote(f.value));
      } else {
        FieldsPrintRead(rest, leq);
        MeaningKeys(rest);
        assert rest[0] in rest && rest[0].key in m - {f.key};
        FirstMemberReads(PrintField(f, leq), PrintFields(rest, leq), m, f.key);
      }
    }
  }
}
