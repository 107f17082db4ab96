/**
  When a stable JSON text does not depend on the order of keys: exactly for values in which no two keys of an
  object tie under the comparison they are sorted by (packages/agent/src/coordinator.ts:2536-2547,
  packages/agent/src/implementationRecoveryPack.ts:454-463).
 */
module StableJsonTies {
  import opened StableJson
  import opened StableJsonUnique

  // ---- A tie can be told from the text ----

  /** Sorting leaves sorted fields as they are. */
  lemma {:induction false} SortedIsKept(fields: seq<Field>, leq: Order)
    requires TotalPreorder(leq) && Sorted(fields, leq)
    ensures Sort(fields, leq) == fields
  {
    if fields != [] {
      SortedIsKept(fields[1..], leq);
      if |fields| > 1 {
        assert fields[1] in fields[1..] && fields[1].key in Keys(fields[1..]);
      }
    }
  }

  /** The first two keys of sorted fields tie if the first ties with any. */
  lemma FirstTieIsNext(s: seq<Field>, k: string, leq: Order)
    requires TotalPreorder(leq) && Sorted(s, leq) && DistinctKeys(s) && s != []
    requires k in Keys(s[1..]) && leq(k, s[0].key)
    ensures |s| > 1 && s[0].key != s[1].key && leq(s[0].key, s[1].key) && leq(s[1].key, s[0].key)
  {
    HeadAndTail(s);
    HeadAndTail(s[1..]);
    assert leq(s[1].key, s[1].key);
    assert leq(s[1].key, k);
  }

  /** The same fields with the first two exchanged. */
  function SwapFirst(s: seq<Field>): seq<Field>
    requires |s| > 1
  {
    [s[1], s[0]] + s[2..]
  }

  /** Another order of the same fields. */
  ghost predicate Reorders(t: seq<Field>, s: seq<Field>) {
    && DistinctKeys(t) && WellFormedFields(t)
    && Keys(t) == Keys(s) && DenoteFields(t) == DenoteFields(s)
  }

  lemma TwoConsesMean(f: Field, g: Field, rest: seq<Field>)
    requires f.key != g.key
    ensures DenoteFields([g] + ([f] + rest)) == DenoteFields([f] + ([g] + rest))
  {
    ConsMeans(f, [g] + rest);
    ConsMeans(g, rest);
    ConsMeans(g, [f] + rest);
    ConsMeans(f, rest);
    hide DenoteFields;
    UpdatesCommute(DenoteFields(rest), g.key, Denote(g.value), f.key, Denote(f.value));
  }

  lemma WellFormedCons(f: Field, fields: seq<Field>)
    ensures WellFormedFields([f] + fields) <==> WellFormed(f.value) && WellFormedFields(fields)
  {
    assert ([f] + fields)[1..] == fields;
  }

  lemma TwoConses(f: Field, g: Field, rest: seq<Field>)
    requires DistinctKeys([f] + ([g] + rest)) && WellFormedFields([f] + ([g] + rest))
    ensures Reorders([g] + ([f] + rest), [f] + ([g] + rest))
  {
    hide DenoteFields, WellFormedFields;
    assert ([f] + ([g] + rest))[1..] == [g] + rest && ([g] + rest)[1..] == rest;
    HeadKeyFresh([f] + ([g] + rest));
    HeadKeyFresh([g] + rest);
    KeysCons(g, rest);
    KeysCons(f, rest);
    KeysCons(f, [g] + rest);
    KeysCons(g, [f] + rest);
    DistinctCons(f, rest);
    DistinctCons(g, [f] + rest);
    WellFormedCons(f, [g] + rest);
    WellFormedCons(g, rest);
    WellFormedCons(f, rest);
    WellFormedCons(g, [f] + rest);
    TwoConsesMean(f, g, rest);
  }

  lemma SwapReorders(s: seq<Field>)
    requires |s| > 1 && DistinctKeys(s) && WellFormedFields(s)
    ensures Reorders(SwapFirst(s), s)
  {
    assert s == [s[0]] + ([s[1]] + s[2..]) && SwapFirst(s) == [s[1]] + ([s[0]] + s[2..]);
    TwoConses(s[0], s[1], s[2..]);
  }

  lemma SwapSorted(s: seq<Field>, leq: Order)
    requires TotalPreorder(leq) && |s| > 1 && Sorted(s, leq)
    requires leq(s[1].key, s[0].key)
    ensures Sorted(SwapFirst(s), leq)
  {
    var rest := s[2..];
    assert s[1..] == [s[1]] + rest && s[1..][1..] == rest;
    KeysCons(s[1], rest);
    KeysCons(s[0], rest);
    ConsSorted(s[0], rest, leq);
    ConsSorted(s[1], [s[0]] + rest, leq);
    assert SwapFirst(s) == [s[1]] + ([s[0]] + rest);
  }

  /** The first place at which the keys of two lists differ. */
  ghost predicate KeysPart(s: seq<Field>, t: seq<Field>) {
    |s| == |t| && exists i :: 0 <= i < |s| && s[i].key != t[i].key
  }

  lemma ConsReorders(f: Field, t: seq<Field>, s: seq<Field>)
    requires Reorders(t, s) && WellFormed(f.value) && f.key !in Keys(s)
    ensures Reorders([f] + t, [f] + s)
  {
    assert ([f] + t)[1..] == t;
    DistinctCons(f, t);
    KeysCons(f, t);
    KeysCons(f, s);
    ConsMeans(f, t);
    ConsMeans(f, s);
  }

  lemma SwapParts(s: seq<Field>, k: string, leq: Order)
    requires TotalPreorder(leq) && Sorted(s, leq) && DistinctKeys(s) && WellFormedFields(s) && s != []
    requires k in Keys(s[1..]) && leq(k, s[0].key)
    ensures |s| > 1 && Reorders(SwapFirst(s), s) && Sorted(SwapFirst(s), leq) && KeysPart(s, SwapFirst(s))
  {
    FirstTieIsNext(s, k, leq);
    SwapReorders(s);
    SwapSorted(s, leq);
    assert s[0].key != SwapFirst(s)[0].key;
  }

  lemma ConsParts(f: Field, s: seq<Field>, t: seq<Field>)
    requires KeysPart(s, t)
    ensures KeysPart([f] + s, [f] + t)
  {
    var i :| 0 <= i < |s| && s[i].key != t[i].key;
    assert ([f] + s)[i + 1].key != ([f] + t)[i + 1].key;
  }

  /** A sorted list of fields has a tie in front, or one behind its first field. */
  lemma TieInFrontOrBehind(s: seq<Field>, leq: Order) returns (k: string, front: bool)
    requires DistinctKeys(s) && !NoTies(Keys(s), leq)
    ensures s != []
    ensures front ==> k in Keys(s[1..]) && leq(k, s[0].key)
    ensures !front ==> !NoTies(Keys(s[1..]), leq)
  {
    var l, m :| l in Keys(s) && m in Keys(s) && leq(l, m) && leq(m, l) && l != m;
    HeadAndTail(s);
    front := s[0].key == l || s[0].key == m;
    k := if s[0].key == l then m else l;
  }

  /** What is sorted otherwise behind the first field is sorted otherwise with it. */
  lemma ConsOtherwise(first: Field, rest: seq<Field>, tail: seq<Field>, leq: Order)
    requires DistinctKeys([first] + rest) && WellFormedFields([first] + rest) && Sorted([first] + rest, leq)
    requires Reorders(tail, rest) && Sorted(tail, leq) && KeysPart(rest, tail)
    ensures Reorders([first] + tail, [first] + rest)
    ensures Sorted([first] + tail, leq) && KeysPart([first] + rest, [first] + tail)
  {
    hide DenoteFields, KeysPart, WellFormedFields;
    assert ([first] + rest)[1..] == rest;
    HeadKeyFresh([first] + rest);
    WellFormedCons(first, rest);
    ConsReorders(first, tail, rest);
    ConsSorted(first, tail, leq);
    ConsParts(first, rest, tail);
  }

  /** Sorted fields of which two keys tie can be sorted differently. */
  lemma {:induction false} SortOtherwise(s: seq<Field>, leq: Order) returns (t: seq<Field>)
    requires TotalPreorder(leq) && Sorted(s, leq) && DistinctKeys(s) && WellFormedFields(s)
    requires !NoTies(Keys(s), leq)
    ensures Reorders(t, s) && Sorted(t, leq) && KeysPart(s, t)
  {
    hide *;
    var k, front := TieInFrontOrBehind(s, leq);
    if front {
      SwapParts(s, k, leq);
      t := SwapFirst(s);
    } else {
      var first, rest := s[0], s[1..];
      assert s == [first] + rest;
      DistinctTail(first, rest);
      SortedTail(first, rest, leq);
      WellFormedCons(first, rest);
      var tail := SortOtherwise(rest, leq);
      t := [first] + tail;
      ConsOtherwise(first, rest, tail, leq);
    }
  }

  /** Equal texts of fields have the same keys in the same places. */
  lemma {:induction false} FieldKeysUnique(a: seq<Field>, b: seq<Field>, x: string, y: string, leq: Order, i: nat)
    requires WellFormedFields(a) && WellFormedFields(b) && Stop(x) && Stop(y)
    requires FieldsThen(a, x, leq) == FieldsThen(b, y, leq)
    requires i < |a| && i < |b|
    ensures a[i].key == b[i].key
    decreases i
  {
    FirstFieldUnique(a, b, x, y, leq);
    if i > 0 {
      assert AfterField(a, x, leq)[0] == ',';
      assert FieldsThen(a[1..], x, leq) == AfterField(a, x, leq)[1..];
      assert FieldsThen(b[1..], y, leq) == AfterField(b, y, leq)[1..];
      FieldKeysUnique(a[1..], b[1..], x, y, leq, i - 1);
    }
  }

  lemma PartedKeysPrintDifferently(s: seq<Field>, t: seq<Field>, leq: Order)
    requires WellFormedFields(s) && WellFormedFields(t) && KeysPart(s, t)
    ensures PrintFields(s, leq) != PrintFields(t, leq)
  {
    var i :| 0 <= i < |s| && s[i].key != t[i].key;
    if PrintFields(s, leq) == PrintFields(t, leq) {
      FieldKeysUnique(s, t, "", "", leq, i);
    }
  }

  // ---- A value with a tie has another text ----

  /** An equal value with a different text. */
  ghost predicate ToldApart(a: Json, b: Json, leq: Order) {
    WellFormed(b) && Denote(b) == Denote(a) && Print(b, leq) != Print(a, leq)
  }

  lemma Suffix(x: string, y: string, z: string)
    requires x + z == y + z
    ensures x == y
  {
    assert |x| == |y|;
    assert x == (x + z)[..|x|] && y == (y + z)[..|y|];
  }

  lemma Prefix(z: string, x: string, y: string)
    requires z + x == z + y
    ensures x == y
  {
    assert x == (z + x)[|z|..] && y == (z + y)[|z|..];
  }

  /** The text after a first item or field. */
  function Then(rest: string, last: bool): string {
    if last then "" else "," + rest
  }

  lemma ItemsPrint(first: Json, rest: seq<Json>, leq: Order)
    ensures PrintItems([first] + rest, leq) == Print(first, leq) + Then(PrintItems(rest, leq), rest == [])
    ensures DenoteItems([first] + rest) == [Denote(first)] + DenoteItems(rest)
    ensures WellFormedItems([first] + rest) <==> WellFormed(first) && WellFormedItems(rest)
  {
    assert ([first] + rest)[1..] == rest;
    assert Print(first, leq) + "" == Print(first, leq);
    assert Print(first, leq) + "," + PrintItems(rest, leq) == Print(first, leq) + ("," + PrintItems(rest, leq));
  }

  lemma FieldsPrint(first: Field, rest: seq<Field>, leq: Order)
    ensures PrintFields([first] + rest, leq) == PrintField(first, leq) + Then(PrintFields(rest, leq), rest == [])
  {
    assert ([first] + rest)[1..] == rest;
    assert PrintField(first, leq) + "" == PrintField(first, leq);
    assert PrintField(first, leq) + "," + PrintFields(rest, leq) ==
           PrintField(first, leq) + ("," + PrintFields(rest, leq));
  }

  lemma FirstDiffers(a: string, b: string, rest: string, last: bool)
    requires a != b
    ensures a + Then(rest, last) != b + Then(rest, last)
  {
    if a + Then(rest, last) == b + Then(rest, last) {
      Suffix(a, b, Then(rest, last));
    }
  }

  lemma RestDiffers(a: string, x: string, y: string)
    requires x != y
    ensures a + Then(x, false) != a + Then(y, false)
  {
    if a + Then(x, false) == a + Then(y, false) {
      Prefix(a, Then(x, false), Then(y, false));
      Prefix(",", x, y);
    }
  }

  lemma FieldDiffers(key: string, a: Json, b: Json, leq: Order)
    requires Print(a, leq) != Print(b, leq)
    ensures PrintField(Field(key, a), leq) != PrintField(Field(key, b), leq)
  {
    if PrintField(Field(key, a), leq) == PrintField(Field(key, b), leq) {
      Prefix(Quote(key) + ":", Print(a, leq), Print(b, leq));
    }
  }

  lemma ObjectDiffers(x: string, y: string)
    requires x != y
    ensures "{" + x + "}" != "{" + y + "}"
    ensures "[" + x + "]" != "[" + y + "]"
  {
    if "{" + x + "}" == "{" + y + "}" {
      Suffix("{" + x, "{" + y, "}");
      Prefix("{", x, y);
    }
    if "[" + x + "]" == "[" + y + "]" {
      Suffix("[" + x, "[" + y, "]");
      Prefix("[", x, y);
    }
  }

  /** A value in which keys tie is equal to one with another text. */
  lemma {:induction false} TieTellsApart(a: Json, leq: Order) returns (b: Json)
    requires TotalPreorder(leq) && WellFormed(a) && !Untied(a, leq)
    ensures ToldApart(a, b, leq)
    decreases Size(a), 0
  {
    match a {
      case Arr(items) =>
        var others := ItemTieTellsApart(items, leq);
        ObjectDiffers(PrintItems(items, leq), PrintItems(others, leq));
        b := Arr(others);
      case Obj(fields) =>
        var s := Sort(fields, leq);
        SortSize(fields, leq);
        SortMeans(fields, leq);
        SortSorts(fields, leq);
        SortUntied(fields, leq);
        var t;
        if NoTies(Keys(fields), leq) {
          t := FieldTieTellsApart(s, leq);
        } else {
          t := SortOtherwise(s, leq);
          PartedKeysPrintDifferently(s, t, leq);
        }
        SortedIsKept(t, leq);
        ObjectDiffers(PrintFields(s, leq), PrintFields(t, leq));
        b := Obj(t);
    }
  }

  lemma {:induction false} ItemTieTellsApart(items: seq<Json>, leq: Order) returns (others: seq<Json>)
    requires TotalPreorder(leq) && WellFormedItems(items) && !UntiedItems(items, leq)
    ensures WellFormedItems(others) && DenoteItems(others) == DenoteItems(items)
    ensures PrintItems(others, leq) != PrintItems(items, leq) && |others| == |items|
    decreases ItemsSize(items) + 1, |items|
  {
    var first, rest := items[0], items[1..];
    assert items == [first] + rest;
    ItemsPrint(first, rest, leq);
    if Untied(first, leq) {
      var more := ItemTieTellsApart(rest, leq);
      others := [first] + more;
      ItemsPrint(first, more, leq);
      RestDiffers(Print(first, leq), PrintItems(rest, leq), PrintItems(more, leq));
    } else {
      var other := TieTellsApart(first, leq);
      others := [other] + rest;
      ItemsPrint(other, rest, leq);
      FirstDiffers(Print(first, leq), Print(other, leq), PrintItems(rest, leq), rest == []);
    }
  }

  /** The same for sorted fields: one value is replaced, and the keys stay where they are. */
  lemma {:induction false} FieldTieTellsApart(s: seq<Field>, leq: Order) returns (t: seq<Field>)
    requires TotalPreorder(leq) && DistinctKeys(s) && WellFormedFields(s) && Sorted(s, leq)
    requires !UntiedFields(s, leq)
    ensures Reorders(t, s) && Sorted(t, leq)
    ensures PrintFields(t, leq) != PrintFields(s, leq) && |t| == |s|
    decreases FieldsSize(s) + 1, |s|
  {
    var first, rest := s[0], s[1..];
    assert s == [first] + rest;
    HeadKeyFresh(s);
    FieldsPrint(first, rest, leq);
    WellFormedCons(first, rest);
    if Untied(first.value, leq) {
      var more := FieldTieTellsApart(rest, leq);
      t := [first] + more;
      ConsReorders(first, more, rest);
      ConsSorted(first, more, leq);
      FieldsPrint(first, more, leq);
      RestDiffers(PrintField(first, leq), PrintFields(rest, leq), PrintFields(more, leq));
    } else {
      var value := TieTellsApart(first.value, leq);
      var other := Field(first.key, value);
      t := [other] + rest;
      ReplacedValue(first, other, rest, leq);
      FieldDiffers(first.key, first.value, value, leq);
      FieldsPrint(other, rest, leq);
      FirstDiffers(PrintField(first, leq), PrintField(other, leq), PrintFields(rest, leq), rest == []);
    }
  }

  lemma DistinctTail(first: Field, rest: seq<Field>)
    requires DistinctKeys([first] + rest)
    ensures DistinctKeys(rest) && first.key !in Keys(rest)
  {
    var all := [first] + rest;
    assert all[1..] == rest;
    HeadKeyFresh(all);
    forall i, j | 0 <= i < j < |rest|
      ensures rest[i].key != rest[j].key
    {
      assert all[i + 1] == rest[i] && all[j + 1] == rest[j];
    }
  }

  lemma SortedTail(first: Field, rest: seq<Field>, leq: Order)
    requires Sorted([first] + rest, leq)
    ensures Sorted(rest, leq) && Below(first.key, Keys(rest), leq)
  {
    assert ([first] + rest)[1..] == rest;
  }

  lemma ReplacedValue(first: Field, other: Field, rest: seq<Field>, leq: Order)
    requires DistinctKeys([first] + rest) && WellFormedFields([first] + rest) && Sorted([first] + rest, leq)
    requires other.key == first.key && WellFormed(other.value) && Denote(other.value) == Denote(first.value)
    ensures Reorders([other] + rest, [first] + rest) && Sorted([other] + rest, leq)
  {
    DistinctTail(first, rest);
    DistinctCons(other, rest);
    WellFormedCons(first, rest);
    WellFormedCons(other, rest);
    KeysCons(first, rest);
    KeysCons(other, rest);
    ConsMeans(first, rest);
    ConsMeans(other, rest);
    SortedTail(first, rest, leq);
    ConsSorted(other, rest, leq);
  }

  // ---- The shortest example ----

  /** An object with two keys, both null. */
  function Pair(k: string, l: string): Json {
    Obj([Field(k, Null), Field(l, Null)])
  }

  lemma PairSorted(k: string, l: string, leq: Order)
    requires leq(k, l)
    ensures Sort([Field(k, Null), Field(l, Null)], leq) == [Field(k, Null), Field(l, Null)]
  {
    var f, g := Field(k, Null), Field(l, Null);
    assert [f, g][1..] == [g] && [g][1..] == [];
    assert Sort([g], leq) == Insert(g, Sort([], leq), leq) == [g];
  }

  lemma NoFields()
    ensures WellFormedFields([]) && DenoteFields([]) == map[]
  {
  }

  lemma PairMeaning(k: string, l: string)
    requires k != l
    ensures WellFormed(Pair(k, l)) && Denote(Pair(k, l)) == MObj(map[k := MNull, l := MNull])
  {
    hide DenoteFields, WellFormedFields;
    var f, g := Field(k, Null), Field(l, Null);
    assert [f, g] == [f] + ([g] + []);
    NoFields();
    WellFormedCons(g, []);
    WellFormedCons(f, [g] + []);
    ConsMeans(g, []);
    ConsMeans(f, [g] + []);
    assert map[l := MNull][k := MNull] == map[k := MNull, l := MNull];
  }

  lemma PairPrint(k: string, l: string, leq: Order) returns (rest: string)
    requires leq(k, l)
    ensures Print(Pair(k, l), leq) == "{" + (Quote(k) + rest)
  {
    PairSorted(k, l, leq);
    var fields := [Field(k, Null), Field(l, Null)];
    rest := ":" + (Print(Null, leq) + AfterField(fields, "", leq));
    SplitFields(fields, "", leq);
    assert "}" + "" == "}";
    assert Print(Pair(k, l), leq) == "{" + FieldsThen(fields, "", leq);
  }

  /** Two keys that tie are printed in the order they came in: equal inputs with different texts. */
  lemma TiedKeysPrintDifferently(k: string, l: string, leq: Order)
    requires k != l && leq(k, l) && leq(l, k)
    ensures WellFormed(Pair(k, l)) && WellFormed(Pair(l, k))
    ensures Denote(Pair(k, l)) == Denote(Pair(l, k))
    ensures Print(Pair(k, l), leq) != Print(Pair(l, k), leq)
  {
    PairMeaning(k, l);
    PairMeaning(l, k);
    var x := PairPrint(k, l, leq);
    var y := PairPrint(l, k, leq);
    assert ("{" + (Quote(k) + x))[1..] == Quote(k) + x && ("{" + (Quote(l) + y))[1..] == Quote(l) + y;
    if Quote(k) + x == Quote(l) + y {
      QuoteUnique(k, l, x, y);
    }
  }

  /**
    A value prints like every value equal to it up to the order of keys exactly when in no object inside it
    two different keys compare as equal.
   */
  lemma EqualMeaningsEqualTextsIff(a: Json, leq: Order)
    requires TotalPreorder(leq) && WellFormed(a)
    ensures Untied(a, leq) <==>
            forall b :: WellFormed(b) && Denote(b) == Denote(a) ==> Print(b, leq) == Print(a, leq)
  {
    if Untied(a, leq) {
      forall b | WellFormed(b) && Denote(b) == Denote(a)
        ensures Print(b, leq) == Print(a, leq)
      {
        MeaningDeterminesPrint(a, b, leq);
      }
    } else {
      var b := TieTellsApart(a, leq);
      assert WellFormed(b) && Denote(b) == Denote(a) && Print(b, leq) != Print(a, leq);
    }
  }
}
