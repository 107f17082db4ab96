/**
  Failure fingerprints (packages/agent/src/coordinator.ts:2697-2737): what a review's failure is hashed from.
  A fingerprint is the value that the source hashes, so equal fingerprints are equal values.
 */
module FailureFingerprint {
  import opened Collections
  import opened ReviewText
  import opened ReviewFindings
  import opened ReviewStreaks

  /** A finding as it enters the fingerprint: trimmed, and without its streak. */
  datatype Content = Content(
    id: string, source: string, text: string, status: Option<ClosureStatus>, closureEvidence: Option<string>,
    details: Details)

  /** How the contents compare; the source compares their stable JSON by locale. */
  type Order = (Content, Content) -> bool

  /** digest: what the implementation evidence guard's validation hashes to. */
  datatype Fingerprint =
    | ManifestFailure(digest: string)
    | ReviewFailure(outcome: Outcome, findings: seq<Content>, snapshotId: Option<string>)

  function TrimIfAny(s: Option<string>): Option<string> {
    if s.Some? then Some(Trim(s.value)) else None
  }

  function ContentOf(f: Finding): Content {
    var d := f.details;
    Content(Trim(f.id), f.source, Trim(f.text), f.status, TrimIfAny(f.closureEvidence),
            Details(d.severity, TrimIfAny(d.location), TrimIfAny(d.claim), TrimIfAny(d.requiredFix),
                    TrimIfAny(d.verification)))
  }

  /** Both absent, or the same but for the whitespace around them. */
  predicate SameTrimmed(a: Option<string>, b: Option<string>) {
    (a.None? && b.None?) || (a.Some? && b.Some? && Trim(a.value) == Trim(b.value))
  }

  /** Two findings enter the fingerprint alike exactly when they differ at most in their streaks and outer whitespace. */
  lemma SameContentIff(f: Finding, g: Finding)
    ensures ContentOf(f) == ContentOf(g) <==>
            && Trim(f.id) == Trim(g.id) && f.source == g.source && Trim(f.text) == Trim(g.text) && f.status == g.status
            && SameTrimmed(f.closureEvidence, g.closureEvidence) && f.details.severity == g.details.severity
            && SameTrimmed(f.details.location, g.details.location) && SameTrimmed(f.details.claim, g.details.claim)
            && SameTrimmed(f.details.requiredFix, g.details.requiredFix)
            && SameTrimmed(f.details.verification, g.details.verification)
  {
  }

  function Contents(findings: seq<Finding>): seq<Content> {
    Map(findings, (f: Finding) => ContentOf(f))
  }

  function Insert(c: Content, sorted: seq<Content>, leq: Order): seq<Content> {
    if sorted == [] || leq(c, sorted[0]) then [c] + sorted else [sorted[0]] + Insert(c, sorted[1..], leq)
  }

  /** Sorted, with contents that tie in their old order. */
  function Sorted(contents: seq<Content>, leq: Order): seq<Content> {
    if contents == [] then [] else Insert(contents[0], Sorted(contents[1..], leq), leq)
  }

  function ReviewFingerprint(outcome: Outcome, findings: seq<Finding>, snapshotId: Option<string>, leq: Order)
    : Fingerprint
  {
    ReviewFailure(outcome, Sorted(Contents(findings), leq), snapshotId)
  }

  // ---- Sorting keeps the contents ----

  lemma {:induction false} InsertKeeps(c: Content, sorted: seq<Content>, leq: Order)
    ensures multiset(Insert(c, sorted, leq)) == multiset{c} + multiset(sorted)
  {
    if sorted != [] && !leq(c, sorted[0]) {
      InsertKeeps(c, sorted[1..], leq);
      assert sorted == [sorted[0]] + sorted[1..];
    }
  }

  lemma {:induction false} SortedKeeps(contents: seq<Content>, leq: Order)
    ensures multiset(Sorted(contents, leq)) == multiset(contents)
  {
    if contents != [] {
      SortedKeeps(contents[1..], leq);
      InsertKeeps(contents[0], Sorted(contents[1..], leq), leq);
      assert contents == [contents[0]] + contents[1..];
    }
  }

  // ---- Contents that do not tie are sorted in one way only ----

  /** What any consistent comparison gives; it may tie. */
  ghost predicate TotalPreorder(leq: Order) {
    && (forall a, b :: leq(a, b) || leq(b, a))
    && (forall a, b, c :: leq(a, b) && leq(b, c) ==> leq(a, c))
  }

  /** No two different contents of the list compare as equal. */
  ghost predicate NoTies(contents: seq<Content>, leq: Order) {
    forall a, b :: a in contents && b in contents && leq(a, b) && leq(b, a) ==> a == b
  }

  /** Every content comes before those behind it. */
  ghost predicate InOrder(s: seq<Content>, leq: Order) {
    s == [] || ((forall x :: x in s[1..] ==> leq(s[0], x)) && InOrder(s[1..], leq))
  }

  lemma {:induction false} InsertKeepsOrder(c: Content, sorted: seq<Content>, leq: Order)
    requires TotalPreorder(leq) && InOrder(sorted, leq)
    ensures InOrder(Insert(c, sorted, leq), leq)
  {
    if sorted == [] {
      assert [c][1..] == [];
    } else if leq(c, sorted[0]) {
      forall x | x in sorted
        ensures leq(c, x)
      {
        LeastFirst(sorted, x, leq);
      }
      ConsInOrder(c, sorted, leq);
    } else {
      InsertKeepsOrder(c, sorted[1..], leq);
      InsertKeeps(c, sorted[1..], leq);
      var rest := Insert(c, sorted[1..], leq);
      forall x | x in rest
        ensures leq(sorted[0], x)
      {
        assert x in multiset(rest);
      }
      assert ([sorted[0]] + rest)[1..] == rest;
    }
  }

  lemma {:induction false} SortedInOrder(contents: seq<Content>, leq: Order)
    requires TotalPreorder(leq)
    ensures InOrder(Sorted(contents, leq), leq)
  {
    if contents != [] {
      SortedInOrder(contents[1..], leq);
      InsertKeepsOrder(contents[0], Sorted(contents[1..], leq), leq);
    }
  }

  lemma LeastFirst(s: seq<Content>, x: Content, leq: Order)
    requires TotalPreorder(leq) && InOrder(s, leq) && x in s
    ensures leq(s[0], x)
  {
    assert s == [s[0]] + s[1..];
    assert leq(x, x);
  }

  lemma SameLeast(a: seq<Content>, b: seq<Content>, leq: Order)
    requires TotalPreorder(leq) && NoTies(a, leq) && InOrder(a, leq) && InOrder(b, leq)
    requires a != [] && b != [] && multiset(a) == multiset(b)
    ensures a[0] == b[0]
  {
    assert a[0] in multiset(b) && b[0] in multiset(a);
    LeastFirst(a, b[0], leq);
    LeastFirst(b, a[0], leq);
  }

  lemma SameRest(a: seq<Content>, b: seq<Content>)
    requires a != [] && b != [] && multiset(a) == multiset(b) && a[0] == b[0]
    ensures multiset(a[1..]) == multiset(b[1..])
  {
    assert a == [a[0]] + a[1..] && b == [b[0]] + b[1..];
    assert multiset(a[1..]) == multiset(a) - multiset{a[0]};
    assert multiset(b[1..]) == multiset(b) - multiset{b[0]};
  }

  lemma {:induction false} OrderDetermines(a: seq<Content>, b: seq<Content>, leq: Order)
    requires TotalPreorder(leq) && NoTies(a, leq) && InOrder(a, leq) && InOrder(b, leq)
    requires multiset(a) == multiset(b)
    ensures a == b
  {
    assert |multiset(a)| == |a| && |multiset(b)| == |b|;
    if a != [] {
      SameLeast(a, b, leq);
      SameRest(a, b);
      OrderDetermines(a[1..], b[1..], leq);
      assert a == [a[0]] + a[1..] && b == [b[0]] + b[1..];
    }
  }

  lemma SameContents(a: seq<Content>, b: seq<Content>)
    requires multiset(a) == multiset(b)
    ensures forall x :: x in a <==> x in b
  {
    forall x
      ensures x in a <==> x in b
    {
      assert x in multiset(a) <==> x in multiset(b);
    }
  }

  /** Contents that do not tie sort to the same list wherever they were. */
  lemma SortForgetsOrder(a: seq<Content>, b: seq<Content>, leq: Order)
    requires TotalPreorder(leq) && NoTies(a, leq) && multiset(a) == multiset(b)
    ensures Sorted(a, leq) == Sorted(b, leq)
  {
    SortedKeeps(a, leq);
    SortedKeeps(b, leq);
    SortedInOrder(a, leq);
    SortedInOrder(b, leq);
    SameContents(a, Sorted(a, leq));
    OrderDetermines(Sorted(a, leq), Sorted(b, leq), leq);
  }

  // ---- And contents that tie in more than one ----

  lemma {:induction false} SortedIsKept(s: seq<Content>, leq: Order)
    requires InOrder(s, leq)
    ensures Sorted(s, leq) == s
  {
    if s != [] {
      SortedIsKept(s[1..], leq);
      if |s| > 1 {
        assert s[1] in s[1..];
      }
    }
  }

  lemma ConsInOrder(x: Content, s: seq<Content>, leq: Order)
    requires InOrder(s, leq) && forall y :: y in s ==> leq(x, y)
    ensures InOrder([x] + s, leq)
  {
    assert ([x] + s)[1..] == s;
  }

  /** The first content that differs from x, and ties with it, can be put in front of it. */
  lemma {:induction false} SortOtherwise(s: seq<Content>, leq: Order) returns (t: seq<Content>)
    requires TotalPreorder(leq) && InOrder(s, leq) && !NoTies(s, leq)
    ensures InOrder(t, leq) && multiset(t) == multiset(s) && t != s
  {
    var x, rest := s[0], s[1..];
    assert s == [x] + rest;
    if NoTies(rest, leq) {
      var y := TieWithFirst(s, leq);
      t := MoveToFront(s, y, leq);
    } else {
      var tail := SortOtherwise(rest, leq);
      t := [x] + tail;
      SameContents(tail, rest);
      ConsInOrder(x, tail, leq);
      assert t[1..] == tail;
    }
  }

  lemma TieWithFirst(s: seq<Content>, leq: Order) returns (y: Content)
    requires s != [] && !NoTies(s, leq) && NoTies(s[1..], leq)
    ensures y in s[1..] && y != s[0] && leq(y, s[0])
  {
    var a, b :| a in s && b in s && leq(a, b) && leq(b, a) && a != b;
    assert s == [s[0]] + s[1..];
    y := if a == s[0] then b else a;
  }

  /** A content that ties with the first one can go in front of everything. */
  lemma MoveToFront(s: seq<Content>, y: Content, leq: Order) returns (t: seq<Content>)
    requires TotalPreorder(leq) && InOrder(s, leq) && s != []
    requires y in s[1..] && y != s[0] && leq(y, s[0])
    ensures InOrder(t, leq) && multiset(t) == multiset(s) && t != s
  {
    var i :| 1 <= i < |s| && s[i] == y;
    var others := s[..i] + s[i + 1..];
    t := [y] + others;
    DropInOrder(s, i, leq);
    assert s == s[..i] + [y] + s[i + 1..];
    forall z | z in others
      ensures leq(y, z)
    {
      assert z in s;
      LeastFirst(s, z, leq);
    }
    ConsInOrder(y, others, leq);
    assert t[0] != s[0];
  }

  lemma {:induction false} DropInOrder(s: seq<Content>, i: nat, leq: Order)
    requires InOrder(s, leq) && i < |s|
    ensures InOrder(s[..i] + s[i + 1..], leq)
  {
    if i == 0 {
      assert s[..0] + s[1..] == s[1..];
    } else {
      var rest := s[1..];
      DropInOrder(rest, i - 1, leq);
      assert rest[..i - 1] + rest[i..] == (s[..i] + s[i + 1..])[1..];
      ConsInOrder(s[0], rest[..i - 1] + rest[i..], leq);
      assert s[..i] + s[i + 1..] == [s[0]] + (rest[..i - 1] + rest[i..]);
    }
  }

  /** Where the contents were makes no difference exactly when no two different ones tie. */
  lemma SortForgetsOrderIff(a: seq<Content>, leq: Order)
    requires TotalPreorder(leq)
    ensures NoTies(a, leq) <==> forall b :: multiset(b) == multiset(a) ==> Sorted(b, leq) == Sorted(a, leq)
  {
    if NoTies(a, leq) {
      forall b | multiset(b) == multiset(a)
        ensures Sorted(b, leq) == Sorted(a, leq)
      {
        SortForgetsOrder(a, b, leq);
      }
    } else {
      SortedKeeps(a, leq);
      SortedInOrder(a, leq);
      SameContents(a, Sorted(a, leq));
      var b := SortOtherwise(Sorted(a, leq), leq);
      SortedIsKept(b, leq);
      assert multiset(b) == multiset(a) && Sorted(b, leq) != Sorted(a, leq);
    }
  }

  /**
    Equal fingerprints mean the same outcome, the same snapshot and the same findings but for their streaks
    and their order; and when no two different ones of them tie, that is all they mean.
   */
  lemma EqualFingerprints(outcome: Outcome, findings: seq<Finding>, snapshotId: Option<string>,
                          outcome': Outcome, findings': seq<Finding>, snapshotId': Option<string>, leq: Order)
    ensures var same := outcome == outcome' && snapshotId == snapshotId' &&
                        multiset(Contents(findings)) == multiset(Contents(findings'));
      var equal := ReviewFingerprint(outcome, findings, snapshotId, leq) ==
                   ReviewFingerprint(outcome', findings', snapshotId', leq);
      (equal ==> same) && (TotalPreorder(leq) && NoTies(Contents(findings), leq) && same ==> equal)
  {
    SortedKeeps(Contents(findings), leq);
    SortedKeeps(Contents(findings'), leq);
    if TotalPreorder(leq) && NoTies(Contents(findings), leq) &&
       multiset(Contents(findings)) == multiset(Contents(findings')) {
      SortForgetsOrder(Contents(findings), Contents(findings'), leq);
    }
  }
}
