/**
  The stable JSON printer behind the fingerprints (packages/agent/src/coordinator.ts:2536-2547,
  packages/agent/src/implementationRecoveryPack.ts:454-463), with string escapes as in section 7 of RFC 8259.
 */
module StableJson {
  datatype Field = Field(key: string, value: Json)

  /** A number is its printed token. */
  datatype Json =
    | Null
    | Bool(b: bool)
    | Num(token: string)
    | Str(s: string)
    | Arr(items: seq<Json>)
    | Obj(fields: seq<Field>)

  /** What a JSON value means: the order of an object's keys does not matter. */
  datatype Meaning =
    | MNull
    | MBool(b: bool)
    | MNum(token: string)
    | MStr(s: string)
    | MArr(items: seq<Meaning>)
    | MObj(fields: map<string, Meaning>)

  // ---- Strings ----

  function Hex(d: int): char
    requires 0 <= d < 16
  {
    if d < 10 then '0' + d as char else 'a' + (d - 10) as char
  }

  function Escape(c: char): string {
    if c == '"' then "\\\""
    else if c == '\\' then "\\\\"
    else if c == '\U{0008}' then "\\b"
    else if c == '\U{000C}' then "\\f"
    else if c == '\n' then "\\n"
    else if c == '\r' then "\\r"
    else if c == '\t' then "\\t"
    else if c < ' ' then ['\\', 'u', '0', '0', Hex(c as int / 16), Hex(c as int % 16)]
    else [c]
  }

  function EscapeAll(s: string): string {
    if s == "" then "" else Escape(s[0]) + EscapeAll(s[1..])
  }

  function Quote(s: string): string {
    "\"" + EscapeAll(s) + "\""
  }

  // ---- Sizes, and sorting by key ----

  function Size(j: Json): nat
    decreases j
  {
    match j
    case Arr(items) => 2 + ItemsSize(items)
    case Obj(fields) => 2 + FieldsSize(fields)
    case _ => 1
  }

  function ItemsSize(items: seq<Json>): nat
    decreases items
  {
    if items == [] then 0 else 1 + Size(items[0]) + ItemsSize(items[1..])
  }

  function FieldsSize(fields: seq<Field>): nat
    decreases fields
  {
    if fields == [] then 0 else 1 + Size(fields[0].value) + FieldsSize(fields[1..])
  }

  type Order = (string, string) -> bool

  /** Into sorted fields, before the first whose key is not smaller. */
  function Insert(f: Field, sorted: seq<Field>, leq: Order): seq<Field> {
    if sorted == [] || leq(f.key, sorted[0].key) then [f] + sorted
    else [sorted[0]] + Insert(f, sorted[1..], leq)
  }

  /** The stable sort of the fields by key. */
  function Sort(fields: seq<Field>, leq: Order): seq<Field> {
    if fields == [] then [] else Insert(fields[0], Sort(fields[1..], leq), leq)
  }

  lemma {:induction false} InsertSize(f: Field, sorted: seq<Field>, leq: Order)
    ensures FieldsSize(Insert(f, sorted, leq)) == 1 + Size(f.value) + FieldsSize(sorted)
  {
    if sorted == [] || leq(f.key, sorted[0].key) {
      assert ([f] + sorted)[1..] == sorted;
    } else {
      InsertSize(f, sorted[1..], leq);
      assert ([sorted[0]] + Insert(f, sorted[1..], leq))[1..] == Insert(f, sorted[1..], leq);
    }
  }

  lemma {:induction false} SortSize(fields: seq<Field>, leq: Order)
    ensures FieldsSize(Sort(fields, leq)) == FieldsSize(fields)
  {
    if fields != [] {
      SortSize(fields[1..], leq);
      InsertSize(fields[0], Sort(fields[1..], leq), leq);
    }
  }

  // ---- Printing ----

  function Print(j: Json, leq: Order): string
    decreases Size(j), 0
  {
    match j
    case Null => "null"
    case Bool(b) => if b then "true" else "false"
    case Num(token) => token
    case Str(s) => Quote(s)
    case Arr(items) => "[" + PrintItems(items, leq) + "]"
    case Obj(fields) =>
      SortSize(fields, leq);
      "{" + PrintFields(Sort(fields, leq), leq) + "}"
  }

  function PrintItems(items: seq<Json>, leq: Order): string
    decreases ItemsSize(items) + 1, |items|
  {
    if items == [] then ""
    else if |items| == 1 then Print(items[0], leq)
    else Print(items[0], leq) + "," + PrintItems(items[1..], leq)
  }

  function PrintField(f: Field, leq: Order): string
    decreases Size(f.value), 1
  {
    Quote(f.key) + ":" + Print(f.value, leq)
  }

  /** The fields in the order given. */
  function PrintFields(fields: seq<Field>, leq: Order): string
    decreases FieldsSize(fields) + 1, |fields|
  {
    if fields == [] then ""
    else if |fields| == 1 then PrintField(fields[0], leq)
    else PrintField(fields[0], leq) + "," + PrintFields(fields[1..], leq)
  }

  // ---- Meaning ----

  function Denote(j: Json): Meaning
    decreases Size(j), 0
  {
    match j
    case Null => MNull
    case Bool(b) => MBool(b)
    case Num(token) => MNum(token)
    case Str(s) => MStr(s)
    case Arr(items) => MArr(DenoteItems(items))
    case Obj(fields) => MObj(DenoteFields(fields))
  }

  function DenoteItems(items: seq<Json>): seq<Meaning>
    decreases ItemsSize(items) + 1, |items|
  {
    if items == [] then [] else [Denote(items[0])] + DenoteItems(items[1..])
  }

  function DenoteFields(fields: seq<Field>): map<string, Meaning>
    decreases FieldsSize(fields) + 1, |fields|
  {
    if fields == [] then map[] else DenoteFields(fields[1..])[fields[0].key := Denote(fields[0].value)]
  }

  ghost predicate DistinctKeys(fields: seq<Field>) {
    forall i, j :: 0 <= i < j < |fields| ==> fields[i].key != fields[j].key
  }

  function Keys(fields: seq<Field>): set<string> {
    set f | f in fields :: f.key
  }

  predicate NumberChar(c: char) {
    '0' <= c <= '9' || c == '-' || c == '+' || c == '.' || c == 'e' || c == 'E'
  }

  /** Tokens are tokens, and no object has a key twice. */
  ghost predicate WellFormed(j: Json)
    decreases Size(j), 0
  {
    match j
    case Num(token) =>
      token != "" && ('0' <= token[0] <= '9' || token[0] == '-') && forall i :: 0 <= i < |token| ==> NumberChar(token[i])
    case Arr(items) => WellFormedItems(items)
    case Obj(fields) => DistinctKeys(fields) && WellFormedFields(fields)
    case _ => true
  }

  ghost predicate WellFormedItems(items: seq<Json>)
    decreases ItemsSize(items) + 1, |items|
  {
    items == [] || (WellFormed(items[0]) && WellFormedItems(items[1..]))
  }

  ghost predicate WellFormedFields(fields: seq<Field>)
    decreases FieldsSize(fields) + 1, |fields|
  {
    fields == [] || (WellFormed(fields[0].value) && WellFormedFields(fields[1..]))
  }
}
