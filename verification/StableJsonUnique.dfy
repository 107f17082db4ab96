/** Equal stable JSON texts mean equal values, up to the order of keys; and when the converse holds. */
module StableJsonUnique {
  import opened StableJson

  // ---- Strings are uniquely decodable ----

  lemma HexUnique(a: int, b: int)
    requires 0 <= a < 16 && 0 <= b < 16 && Hex(a) == Hex(b)
    ensures a == b
  {
  }

  /** Two escapes at the start of one text are the same escape. */
  lemma EscapeUnique(a: char, b: char, x: string, y: string)
    requires Escape(a) + x == Escape(b) + y
    ensures a == b && x == y
  {
    var s, t := Escape(a) + x, Escape(b) + y;
    assert s[0] == Escape(a)[0] && t[0] == Escape(b)[0];
    if s[0] == '\\' {
      assert s[1] == Escape(a)[1] && t[1] == Escape(b)[1];
      if s[1] == 'u' {
        assert s[4] == Hex(a as int / 16) && t[4] == Hex(b as int / 16);
        assert s[5] == Hex(a as int % 16) && t[5] == Hex(b as int % 16);
        HexUnique(a as int / 16, b as int / 16);
        HexUnique(a as int % 16, b as int % 16);
      }
    }
    assert a == b;
    assert x == s[|Escape(a)|..] && y == t[|Escape(b)|..];
  }

  lemma EscapeStart(c: char)
    ensures Escape(c) != "" && Escape(c)[0] != '"'
  {
  }

  /** The rest of a string literal with what follows it. */
  function RestOfString(s: string, x: string): string {
    EscapeAll(s) + ("\"" + x)
  }

  lemma RestStart(s: string, x: string)
    ensures RestOfString(s, x) != ""
    ensures RestOfString(s, x)[0] == '"' <==> s == ""
  {
    if s != "" {
      EscapeStart(s[0]);
      RestSplit(s, x);
    }
  }

  lemma RestSplit(s: string, x: string)
    requires s != ""
    ensures RestOfString(s, x) == Escape(s[0]) + RestOfString(s[1..], x)
  {
    assert EscapeAll(s) == Escape(s[0]) + EscapeAll(s[1..]);
  }

  lemma {:induction false} EscapeAllUnique(s: string, t: string, x: string, y: string)
    requires RestOfString(s, x) == RestOfString(t, y)
    ensures s == t && x == y
    decreases |s|
  {
    RestStart(s, x);
    RestStart(t, y);
    if s == "" {
      assert x == RestOfString(s, x)[1..] && y == RestOfString(t, y)[1..];
    } else {
      RestSplit(s, x);
      RestSplit(t, y);
      EscapeUnique(s[0], t[0], RestOfString(s[1..], x), RestOfString(t[1..], y));
      EscapeAllUnique(s[1..], t[1..], x, y);
      assert s == [s[0]] + s[1..] && t == [t[0]] + t[1..];
    }
  }

  lemma QuoteRest(s: string, x: string)
    ensures (Quote(s) + x)[1..] == RestOfString(s, x)
  {
  }

  lemma QuoteUnique(s: string, t: string, x: string, y: string)
    requires Quote(s) + x == Quote(t) + y
    ensures s == t && x == y
  {
    QuoteRest(s, x);
    QuoteRest(t, y);
    hide *;
    EscapeAllUnique(s, t, x, y);
  }

  // ---- Values are uniquely decodable ----

  /** What may follow a value inside a text. */
  predicate Stop(x: string) {
    x == "" || x[0] == ',' || x[0] == ']' || x[0] == '}'
  }

  /** The first character tells the kinds of values apart. */
  function Kind(c: char): int {
    if c == 'n' then 1 else if c == 't' || c == 'f' then 2 else if c == '"' then 4 else if c == '[' then 5
    else if c == '{' then 6 else if '0' <= c <= '9' || c == '-' then 3 else 0
  }

  function KindOf(j: Json): int {
    match j
    case Null => 1
    case Bool(_) => 2
    case Num(_) => 3
    case Str(_) => 4
    case Arr(_) => 5
    case Obj(_) => 6
  }

  lemma FirstChar(j: Json, leq: Order)
    requires WellFormed(j)
    ensures Print(j, leq) != "" && Kind(Print(j, leq)[0]) == KindOf(j)
  {
  }

  lemma SameKind(a: Json, b: Json, x: string, y: string, leq: Order)
    requires WellFormed(a) && WellFormed(b)
    requires Print(a, leq) + x == Print(b, leq) + y
    ensures KindOf(a) == KindOf(b)
  {
    FirstChar(a, leq);
    FirstChar(b, leq);
    assert (Print(a, leq) + x)[0] == Print(a, leq)[0];
    assert (Print(b, leq) + y)[0] == Print(b, leq)[0];
  }

  /** The longest start of the text that could be a number token. */
  function TokenOf(s: string): string {
    if s != "" && NumberChar(s[0]) then [s[0]] + TokenOf(s[1..]) else ""
  }

  lemma {:induction false} TokenEnds(token: string, x: string)
    requires forall i :: 0 <= i < |token| ==> NumberChar(token[i])
    requires Stop(x)
    ensures TokenOf(token + x) == token
  {
    if token == "" {
      assert token + x == x;
    } else {
      assert (token + x)[1..] == token[1..] + x;
      TokenEnds(token[1..], x);
    }
  }

  lemma TokenUnique(a: string, b: string, x: string, y: string)
    requires forall i :: 0 <= i < |a| ==> NumberChar(a[i])
    requires forall i :: 0 <= i < |b| ==> NumberChar(b[i])
    requires Stop(x) && Stop(y) && a + x == b + y
    ensures a == b && x == y
  {
    TokenEnds(a, x);
    TokenEnds(b, y);
    assert x == (a + x)[|a|..] && y == (b + y)[|b|..];
  }

  lemma BoolUnique(a: bool, b: bool, x: string, y: string, leq: Order)
    requires Print(Bool(a), leq) + x == Print(Bool(b), leq) + y
    ensures a == b && x == y
  {
    var s, t := Print(Bool(a), leq) + x, Print(Bool(b), leq) + y;
    assert s[0] == (if a then 't' else 'f') && t[0] == (if b then 't' else 'f');
    assert x == s[|Print(Bool(a), leq)|..] && y == t[|Print(Bool(b), leq)|..];
  }

  /** The items, or the fields, with what follows the value that holds them. */
  function ItemsThen(items: seq<Json>, x: string, leq: Order): string {
    PrintItems(items, leq) + ("]" + x)
  }

  function FieldsThen(fields: seq<Field>, x: string, leq: Order): string {
    PrintFields(fields, leq) + ("}" + x)
  }

  /** What follows the first item. */
  function AfterItem(items: seq<Json>, x: string, leq: Order): string
    requires items != []
  {
    if |items| == 1 then "]" + x else "," + ItemsThen(items[1..], x, leq)
  }

  function AfterField(fields: seq<Field>, x: string, leq: Order): string
    requires fields != []
  {
    if |fields| == 1 then "}" + x else "," + FieldsThen(fields[1..], x, leq)
  }

  lemma SplitItems(items: seq<Json>, x: string, leq: Order)
    requires items != []
    ensures ItemsThen(items, x, leq) == Print(items[0], leq) + AfterItem(items, x, leq)
    ensures Stop(AfterItem(items, x, leq))
  {
  }

  lemma SplitFields(fields: seq<Field>, x: string, leq: Order)
    requires fields != []
    ensures FieldsThen(fields, x, leq) ==
            Quote(fields[0].key) + (":" + (Print(fields[0].value, leq) + AfterField(fields, x, leq)))
    ensures Stop(AfterField(fields, x, leq))
  {
    var f, rest := fields[0], AfterField(fields, x, leq);
    assert FieldsThen(fields, x, leq) == PrintField(f, leq) + rest;
    Associate(Quote(f.key), ":", Print(f.value, leq), rest);
  }

  lemma Associate(a: string, b: string, c: string, d: string)
    ensures a + b + c + d == a + (b + (c + d))
  {
  }

  lemma ItemsStart(items: seq<Json>, x: string, leq: Order)
    requires WellFormedItems(items)
    ensures ItemsThen(items, x, leq) != ""
    ensures ItemsThen(items, x, leq)[0] == ']' <==> items == []
  {
    if items != [] {
      SplitItems(items, x, leq);
      FirstChar(items[0], leq);
    }
  }

  lemma FieldsStart(fields: seq<Field>, x: string, leq: Order)
    ensures FieldsThen(fields, x, leq) != ""
    ensures FieldsThen(fields, x, leq)[0] == '}' <==> fields == []
  {
    if fields != [] {
      SplitFields(fields, x, leq);
      assert Quote(fields[0].key)[0] == '"';
    }
  }

  lemma NullUnique(x: string, y: string)
    requires "null" + x == "null" + y
    ensures x == y
  {
    assert ("null" + x)[4..] == x && ("null" + y)[4..] == y;
  }

  lemma InsideArray(items: seq<Json>, x: string, leq: Order)
    ensures (Print(Arr(items), leq) + x)[1..] == ItemsThen(items, x, leq)
  {
  }

  lemma InsideObject(fields: seq<Field>, x: string, leq: Order)
    ensures (Print(Obj(fields), leq) + x)[1..] == FieldsThen(Sort(fields, leq), x, leq)
  {
  }

  /** Equal texts of values, and of what follows, mean equal values. */
  lemma {:induction false} PrintUnique(a: Json, b: Json, x: string, y: string, leq: Order)
    requires WellFormed(a) && WellFormed(b) && Stop(x) && Stop(y)
    requires Print(a, leq) + x == Print(b, leq) + y
    ensures Denote(a) == Denote(b) && x == y
    decreases Size(a), 0
  {
    SameKind(a, b, x, y, leq);
    match a
    case Null => NullUnique(x, y);
    case Bool(v) => BoolUnique(v, b.b, x, y, leq);
    case Num(token) => TokenUnique(token, b.token, x, y);
    case Str(v) => QuoteUnique(v, b.s, x, y);
    case Arr(items) =>
      InsideArray(items, x, leq);
      InsideArray(b.items, y, leq);
      ItemsUnique(items, b.items, x, y, leq);
    case Obj(fields) =>
      InsideObject(fields, x, leq);
      InsideObject(b.fields, y, leq);
      SortSize(fields, leq);
      SortMeans(fields, leq);
      SortMeans(b.fields, leq);
      FieldsUnique(Sort(fields, leq), Sort(b.fields, leq), x, y, leq);
  }

  lemma {:induction false} ItemsUnique(a: seq<Json>, b: seq<Json>, x: string, y: string, leq: Order)
    requires WellFormedItems(a) && WellFormedItems(b) && Stop(x) && Stop(y)
    requires ItemsThen(a, x, leq) == ItemsThen(b, y, leq)
    ensures DenoteItems(a) == DenoteItems(b) && x == y
    decreases ItemsSize(a) + 1, |a|
  {
    ItemsStart(a, x, leq);
    ItemsStart(b, y, leq);
    if a == [] {
      assert x == ItemsThen(a, x, leq)[1..] && y == ItemsThen(b, y, leq)[1..];
    } else {
      SplitItems(a, x, leq);
      SplitItems(b, y, leq);
      PrintUnique(a[0], b[0], AfterItem(a, x, leq), AfterItem(b, y, leq), leq);
      if |a| == 1 {
        assert AfterItem(a, x, leq)[0] == ']';
        assert x == AfterItem(a, x, leq)[1..] && y == AfterItem(b, y, leq)[1..];
      } else {
        assert AfterItem(a, x, leq)[0] == ',';
        assert ItemsThen(a[1..], x, leq) == AfterItem(a, x, leq)[1..];
        assert ItemsThen(b[1..], y, leq) == AfterItem(b, y, leq)[1..];
        ItemsUnique(a[1..], b[1..], x, y, leq);
      }
    }
  }

  lemma {:induction false} FieldsUnique(a: seq<Field>, b: seq<Field>, x: string, y: string, leq: Order)
    requires WellFormedFields(a) && WellFormedFields(b) && Stop(x) && Stop(y)
    requires FieldsThen(a, x, leq) == FieldsThen(b, y, leq)
    ensures DenoteFields(a) == DenoteFields(b) && x == y
    decreases FieldsSize(a) + 1, |a|
  {
    FieldsStart(a, x, leq);
    FieldsStart(b, y, leq);
    if a == [] {
      assert x == FieldsThen(a, x, leq)[1..] && y == FieldsThen(b, y, leq)[1..];
    } else {
      FirstFieldUnique(a, b, x, y, leq);
      if |a| == 1 {
        assert AfterField(a, x, leq)[0] == '}';
        assert x == AfterField(a, x, leq)[1..] && y == AfterField(b, y, leq)[1..];
      } else {
        assert AfterField(a, x, leq)[0] == ',';
        assert FieldsThen(a[1..], x, leq) == AfterField(a, x, leq)[1..];
        assert FieldsThen(b[1..], y, leq) == AfterField(b, y, leq)[1..];
        FieldsUnique(a[1..], b[1..], x, y, leq);
      }
    }
  }

  lemma {:induction false} FirstFieldUnique(a: seq<Field>, b: seq<Field>, x: string, y: string, leq: Order)
    requires a != [] && b != []
    requires WellFormedFields(a) && WellFormedFields(b)
    requires FieldsThen(a, x, leq) == FieldsThen(b, y, leq)
    ensures a[0].key == b[0].key && Denote(a[0].value) == Denote(b[0].value)
    ensures AfterField(a, x, leq) == AfterField(b, y, leq)
    decreases FieldsSize(a), 1
  {
    SplitFields(a, x, leq);
    SplitFields(b, y, leq);
    var p := Print(a[0].value, leq) + AfterField(a, x, leq);
    var q := Print(b[0].value, leq) + AfterField(b, y, leq);
    QuoteUnique(a[0].key, b[0].key, ":" + p, ":" + q);
    assert (":" + p)[1..] == p && (":" + q)[1..] == q;
    PrintUnique(a[0].value, b[0].value, AfterField(a, x, leq), AfterField(b, y, leq), leq);
  }

  // ---- Sorting keeps the meaning ----

  lemma {:induction false} InsertKeys(f: Field, sorted: seq<Field>, leq: Order)
    requires DistinctKeys(sorted) && f.key !in Keys(sorted)
    ensures Keys(Insert(f, sorted, leq)) == Keys(sorted) + {f.key}
    ensures DistinctKeys(Insert(f, sorted, leq))
  {
    if sorted == [] || leq(f.key, sorted[0].key) {
      KeysCons(f, sorted);
      DistinctCons(f, sorted);
    } else {
      var head, tail := sorted[0], sorted[1..];
      assert sorted == [head] + tail;
      KeysCons(head, tail);
      HeadKeyFresh(sorted);
      InsertKeys(f, tail, leq);
      KeysCons(head, Insert(f, tail, leq));
      DistinctCons(head, Insert(f, tail, leq));
    }
  }

  lemma {:induction false} InsertWellFormed(f: Field, sorted: seq<Field>, leq: Order)
    requires WellFormed(f.value) && WellFormedFields(sorted)
    ensures WellFormedFields(Insert(f, sorted, leq))
  {
    if sorted == [] || leq(f.key, sorted[0].key) {
      assert ([f] + sorted)[1..] == sorted;
    } else {
      InsertWellFormed(f, sorted[1..], leq);
      var rest := Insert(f, sorted[1..], leq);
      assert ([sorted[0]] + rest)[1..] == rest;
    }
  }

  lemma ConsMeans(f: Field, fields: seq<Field>)
    ensures DenoteFields([f] + fields) == DenoteFields(fields)[f.key := Denote(f.value)]
  {
    assert ([f] + fields)[1..] == fields;
  }

  lemma UpdatesCommute(m: map<string, Meaning>, k: string, v: Meaning, l: string, w: Meaning)
    requires k != l
    ensures m[k := v][l := w] == m[l := w][k := v]
  {
  }

  lemma {:induction false} InsertMeans(f: Field, sorted: seq<Field>, leq: Order)
    requires DistinctKeys(sorted) && f.key !in Keys(sorted)
    ensures DenoteFields(Insert(f, sorted, leq)) == DenoteFields(sorted)[f.key := Denote(f.value)]
  {
    if sorted == [] || leq(f.key, sorted[0].key) {
      ConsMeans(f, sorted);
    } else {
      var head, tail := sorted[0], sorted[1..];
      assert sorted == [head] + tail;
      KeysCons(head, tail);
      InsertMeans(f, tail, leq);
      ConsMeans(head, Insert(f, tail, leq));
      ConsMeans(head, tail);
      UpdatesCommute(DenoteFields(tail), f.key, Denote(f.value), head.key, Denote(head.value));
    }
  }

  lemma KeysCons(f: Field, fields: seq<Field>)
    ensures Keys([f] + fields) == {f.key} + Keys(fields)
  {
    assert f in [f] + fields;
  }

  lemma HeadKeyFresh(fields: seq<Field>)
    requires fields != [] && DistinctKeys(fields)
    ensures fields[0].key !in Keys(fields[1..])
  {
  }

  lemma DistinctCons(f: Field, fields: seq<Field>)
    requires DistinctKeys(fields) && f.key !in Keys(fields)
    ensures DistinctKeys([f] + fields)
  {
    forall i | 0 <= i < |fields|
      ensures fields[i].key != f.key
    {
      assert fields[i] in fields;
    }
  }

  lemma {:induction false} SortMeans(fields: seq<Field>, leq: Order)
    requires DistinctKeys(fields) && WellFormedFields(fields)
    ensures WellFormedFields(Sort(fields, leq)) && DistinctKeys(Sort(fields, leq))
    ensures Keys(Sort(fields, leq)) == Keys(fields)
    ensures DenoteFields(Sort(fields, leq)) == DenoteFields(fields)
  {
    if fields != [] {
      HeadKeyFresh(fields);
      SortMeans(fields[1..], leq);
      InsertKeys(fields[0], Sort(fields[1..], leq), leq);
      InsertWellFormed(fields[0], Sort(fields[1..], leq), leq);
      InsertMeans(fields[0], Sort(fields[1..], leq), leq);
      assert fields == [fields[0]] + fields[1..];
      KeysCons(fields[0], fields[1..]);
    }
  }

  /** Equal fingerprint texts mean equal inputs, ignoring the order of keys, whatever order the keys are sorted by. */
  lemma EqualTextsEqualMeanings(a: Json, b: Json, leq: Order)
    requires WellFormed(a) && WellFormed(b)
    requires Print(a, leq) == Print(b, leq)
    ensures Denote(a) == Denote(b)
  {
    assert Print(a, leq) + "" == Print(b, leq) + "";
    PrintUnique(a, b, "", "", leq);
  }

  // ---- The converse, and for which values it holds ----

  /** What any consistent comparison gives; it may tie. */
  ghost predicate TotalPreorder(leq: Order) {
    && (forall a, b :: leq(a, b) || leq(b, a))
    && (forall a, b, c :: leq(a, b) && leq(b, c) ==> leq(a, c))
  }

  /** No two different keys of the set compare as equal. */
  ghost predicate NoTies(keys: set<string>, leq: Order) {
    forall k, l :: k in keys && l in keys && leq(k, l) && leq(l, k) ==> k == l
  }

  /** In no object inside the value do two different keys compare as equal. */
  ghost predicate Untied(j: Json, leq: Order)
    decreases Size(j), 0
  {
    match j
    case Arr(items) => UntiedItems(items, leq)
    case Obj(fields) => NoTies(Keys(fields), leq) && UntiedFields(fields, leq)
    case _ => true
  }

  ghost predicate UntiedItems(items: seq<Json>, leq: Order)
    decreases ItemsSize(items) + 1, |items|
  {
    items == [] || (Untied(items[0], leq) && UntiedItems(items[1..], leq))
  }

  ghost predicate UntiedFields(fields: seq<Field>, leq: Order)
    decreases FieldsSize(fields) + 1, |fields|
  {
    fields == [] || (Untied(fields[0].value, leq) && UntiedFields(fields[1..], leq))
  }

  lemma {:induction false} InsertUntied(f: Field, sorted: seq<Field>, leq: Order)
    ensures UntiedFields(Insert(f, sorted, leq), leq) <==> Untied(f.value, leq) && UntiedFields(sorted, leq)
  {
    if sorted == [] || leq(f.key, sorted[0].key) {
      assert ([f] + sorted)[1..] == sorted;
    } else {
      InsertUntied(f, sorted[1..], leq);
      var rest := Insert(f, sorted[1..], leq);
      assert ([sorted[0]] + rest)[1..] == rest;
    }
  }

  lemma {:induction false} SortUntied(fields: seq<Field>, leq: Order)
    ensures UntiedFields(Sort(fields, leq), leq) <==> UntiedFields(fields, leq)
  {
    if fields != [] {
      SortUntied(fields[1..], leq);
      InsertUntied(fields[0], Sort(fields[1..], leq), leq);
    }
  }

  /** The first key is below all others, and so on. */
  ghost predicate Sorted(fields: seq<Field>, leq: Order) {
    fields == [] || ((forall k :: k in Keys(fields[1..]) ==> leq(fields[0].key, k)) && Sorted(fields[1..], leq))
  }

  /** The key is below all the given ones. */
  ghost predicate Below(key: string, keys: set<string>, leq: Order) {
    forall k :: k in keys ==> leq(key, k)
  }

  lemma ConsSorted(head: Field, rest: seq<Field>, leq: Order)
    requires Sorted(rest, leq) && Below(head.key, Keys(rest), leq)
    ensures Sorted([head] + rest, leq)
  {
    assert ([head] + rest)[1..] == rest;
  }

  lemma BelowAll(key: string, sorted: seq<Field>, leq: Order)
    requires TotalPreorder(leq) && Sorted(sorted, leq)
    requires sorted != [] && leq(key, sorted[0].key)
    ensures Below(key, Keys(sorted), leq)
  {
    assert sorted == [sorted[0]] + sorted[1..];
    KeysCons(sorted[0], sorted[1..]);
  }

  lemma {:induction false} InsertSorted(f: Field, sorted: seq<Field>, leq: Order)
    requires TotalPreorder(leq) && Sorted(sorted, leq)
    requires DistinctKeys(sorted) && f.key !in Keys(sorted)
    ensures Sorted(Insert(f, sorted, leq), leq)
  {
    if sorted == [] {
      ConsSorted(f, sorted, leq);
    } else if leq(f.key, sorted[0].key) {
      BelowAll(f.key, sorted, leq);
      ConsSorted(f, sorted, leq);
    } else {
      var head, tail := sorted[0], sorted[1..];
      assert sorted == [head] + tail;
      KeysCons(head, tail);
      HeadKeyFresh(sorted);
      InsertSorted(f, tail, leq);
      InsertKeys(f, tail, leq);
      assert leq(head.key, f.key);
      ConsSorted(head, Insert(f, tail, leq), leq);
    }
  }

  lemma {:induction false} SortSorts(fields: seq<Field>, leq: Order)
    requires TotalPreorder(leq) && DistinctKeys(fields) && WellFormedFields(fields)
    ensures Sorted(Sort(fields, leq), leq)
  {
    if fields != [] {
      HeadKeyFresh(fields);
      SortSorts(fields[1..], leq);
      SortMeans(fields[1..], leq);
      InsertSorted(fields[0], Sort(fields[1..], leq), leq);
    }
  }

  lemma {:induction false} MeaningKeys(fields: seq<Field>)
    ensures DenoteFields(fields).Keys == Keys(fields)
  {
    if fields != [] {
      MeaningKeys(fields[1..]);
      assert fields == [fields[0]] + fields[1..];
      KeysCons(fields[0], fields[1..]);
    }
  }

  lemma HeadAndTail(fields: seq<Field>)
    requires fields != [] && DistinctKeys(fields)
    ensures fields[0].key in Keys(fields) && fields[0].key !in Keys(fields[1..])
    ensures Keys(fields) == {fields[0].key} + Keys(fields[1..])
    ensures fields[0].key in DenoteFields(fields)
    ensures DenoteFields(fields)[fields[0].key] == Denote(fields[0].value)
    ensures DenoteFields(fields[1..]) == DenoteFields(fields) - {fields[0].key}
  {
    hide DistinctKeys;
    HeadKeyFresh(fields);
    MeaningKeys(fields[1..]);
    assert fields == [fields[0]] + fields[1..];
    KeysCons(fields[0], fields[1..]);
  }

  lemma SameFirstKey(a: seq<Field>, b: seq<Field>, leq: Order)
    requires TotalPreorder(leq) && NoTies(Keys(a), leq)
    requires a != [] && b != [] && Sorted(a, leq) && Sorted(b, leq)
    requires DistinctKeys(a) && DistinctKeys(b) && Keys(a) == Keys(b)
    ensures a[0].key == b[0].key
  {
    HeadAndTail(a);
    HeadAndTail(b);
    assert leq(a[0].key, a[0].key);
    assert leq(a[0].key, b[0].key) && leq(b[0].key, a[0].key);
  }

  /** A value in which no keys tie prints like every value equal to it up to the order of keys. */
  lemma {:induction false} MeaningDeterminesPrint(a: Json, b: Json, leq: Order)
    requires TotalPreorder(leq) && Untied(a, leq)
    requires WellFormed(a) && WellFormed(b) && Denote(a) == Denote(b)
    ensures Print(a, leq) == Print(b, leq)
    decreases Size(a), 0
  {
    match a
    case Arr(items) => ItemsDeterminePrint(items, b.items, leq);
    case Obj(fields) =>
      SortMeans(fields, leq);
      SortMeans(b.fields, leq);
      SortSorts(fields, leq);
      SortSorts(b.fields, leq);
      SortSize(fields, leq);
      SortUntied(fields, leq);
      FieldsDeterminePrint(Sort(fields, leq), Sort(b.fields, leq), leq);
    case _ =>
  }

  lemma {:induction false} ItemsDeterminePrint(a: seq<Json>, b: seq<Json>, leq: Order)
    requires TotalPreorder(leq) && UntiedItems(a, leq)
    requires WellFormedItems(a) && WellFormedItems(b) && DenoteItems(a) == DenoteItems(b)
    ensures PrintItems(a, leq) == PrintItems(b, leq)
    ensures |a| == |b|
    decreases ItemsSize(a) + 1, |a|
  {
    if a != [] {
      assert DenoteItems(a)[0] == Denote(a[0]) && DenoteItems(b)[0] == Denote(b[0]);
      assert DenoteItems(a)[1..] == DenoteItems(a[1..]) && DenoteItems(b)[1..] == DenoteItems(b[1..]);
      MeaningDeterminesPrint(a[0], b[0], leq);
      ItemsDeterminePrint(a[1..], b[1..], leq);
    }
  }

  lemma {:induction false} FieldsDeterminePrint(a: seq<Field>, b: seq<Field>, leq: Order)
    requires TotalPreorder(leq) && NoTies(Keys(a), leq) && UntiedFields(a, leq)
    requires WellFormedFields(a) && WellFormedFields(b) && DistinctKeys(a) && DistinctKeys(b)
    requires Sorted(a, leq) && Sorted(b, leq) && DenoteFields(a) == DenoteFields(b)
    ensures PrintFields(a, leq) == PrintFields(b, leq)
    ensures |a| == |b|
    decreases FieldsSize(a) + 1, |a|
  {
    MeaningKeys(a);
    MeaningKeys(b);
    if a != [] && b != [] {
      SameFirstKey(a, b, leq);
      HeadAndTail(a);
      HeadAndTail(b);
      MeaningDeterminesPrint(a[0].value, b[0].value, leq);
      FieldsDeterminePrint(a[1..], b[1..], leq);
      assert PrintField(a[0], leq) == PrintField(b[0], leq);
    } else {
      NoKeysNoFields(a);
      NoKeysNoFields(b);
    }
  }

  lemma NoKeysNoFields(fields: seq<Field>)
    ensures Keys(fields) == {} <==> fields == []
  {
    if fields != [] {
      assert fields[0].key in Keys(fields);
    }
  }
}
